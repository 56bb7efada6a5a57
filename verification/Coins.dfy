/** The unspent-output view: a stack of write-back caches over a coin database.

    `Chain` is the value of such a stack and the functions over it give the exact
    effect of each operation.  The class `CoinsViewCache` performs the operations in
    place, on caches that point at one another, and is proved to have exactly those
    effects.  The theorems about whole runs are then about the values. */
module Coins {
  import opened Options

  // ---------- coins and cache entries ----------

  datatype OutPoint = OutPoint(hash: int, n: nat)

  datatype TxOut = TxOut(nValue: int, nRounds: int, scriptPubKey: seq<bv8>)

  const OP_RETURN: bv8 := 0x6a

  datatype Coin = Coin(out: TxOut, fCoinBase: bool, nHeight: nat) {
    predicate IsSpent() { out.nValue == -1 }

    predicate IsUnspendable() { |out.scriptPubKey| > 0 && out.scriptPubKey[0] == OP_RETURN }

    function DynamicMemoryUsage(): nat { MallocUsage(|out.scriptPubKey|) }
  }

  const EMPTY_COIN := Coin(TxOut(-1, -10, []), false, 0)

  function MallocUsage(alloc: nat): nat {
    if alloc == 0 then 0 else (alloc + 31) / 16 * 16
  }

  datatype Entry = Entry(coin: Coin, isDirty: bool, isFresh: bool)

  type CoinsMap = map<OutPoint, Entry>

  ghost function UsageOf(m: CoinsMap): nat
  {
    if m == map[] then 0 else
      var o :| o in m;
      m[o].coin.DynamicMemoryUsage() + UsageOf(m - {o})
  }

  lemma {:induction false} UsageRemove(m: CoinsMap, o: OutPoint)
    requires o in m
    ensures UsageOf(m) == m[o].coin.DynamicMemoryUsage() + UsageOf(m - {o})
    decreases |m|
  {
    var p :| p in m && UsageOf(m) == m[p].coin.DynamicMemoryUsage() + UsageOf(m - {p});
    if p != o {
      UsageRemove(m - {p}, o);
      UsageRemove(m - {o}, p);
      assert m - {p} - {o} == m - {o} - {p};
    }
  }

  lemma UsageUpdate(m: CoinsMap, o: OutPoint, e: Entry)
    ensures UsageOf(m[o := e]) ==
            UsageOf(m) + e.coin.DynamicMemoryUsage() - (if o in m then m[o].coin.DynamicMemoryUsage() else 0)
  {
    UsageRemove(m[o := e], o);
    assert m[o := e] - {o} == m - {o};
    if o in m {
      UsageRemove(m, o);
    } else {
      assert m - {o} == m;
    }
  }

  // ---------- the value of a stack of caches ----------

  datatype Chain = Database(coins: map<OutPoint, Coin>)
                 | Cached(entries: CoinsMap, usage: int, base: Chain)

  /** What a reader of the top of the stack is shown. */
  function Look(ch: Chain, o: OutPoint): Option<Coin> {
    match ch
    case Database(coins) => if o in coins && !coins[o].IsSpent() then Some(coins[o]) else None
    case Cached(entries, _, base) => LookThrough(if o in entries then Some(entries[o]) else None, Look(base, o))
  }

  function LookThrough(e: Option<Entry>, below: Option<Coin>): Option<Coin> {
    match e
    case None => below
    case Some(entry) => if entry.coin.IsSpent() then None else Some(entry.coin)
  }

  /** The meaning of the flags: an entry that is not DIRTY repeats what the layer below
      shows, and a FRESH entry is an unspent coin that the layer below does not show. */
  predicate EntryOk(e: Entry, below: Option<Coin>) {
    && (e.coin.IsSpent() ==> e.coin == EMPTY_COIN)
    && (!e.isDirty ==> !e.coin.IsSpent() && below == Some(e.coin))
    && (e.isFresh ==> !e.coin.IsSpent() && below == None)
  }

  ghost predicate WellFormed(ch: Chain) {
    match ch
    case Database(coins) => forall o :: o in coins ==> !coins[o].IsSpent()
    case Cached(entries, _, base) =>
      && WellFormed(base)
      && forall o :: o in entries ==> EntryOk(entries[o], Look(base, o))
  }

  ghost predicate UsageExact(ch: Chain) {
    ch.Cached? ==> ch.usage == UsageOf(ch.entries) && UsageExact(ch.base)
  }

  // ---------- the effect of each operation ----------

  function AfterGet(ch: Chain, o: OutPoint): Chain {
    match ch
    case Database(_) => ch
    case Cached(entries, usage, base) =>
      if o in entries then ch else
        match Look(base, o)
        case None => Cached(entries, usage, AfterGet(base, o))
        case Some(c) => Cached(entries[o := Entry(c, false, c.IsSpent())],
                               usage + c.DynamicMemoryUsage(), AfterGet(base, o))
  }

  predicate AddThrows(ch: Chain, o: OutPoint, coin: Coin, possibleOverwrite: bool)
    requires ch.Cached?
  {
    !coin.IsUnspendable() && !possibleOverwrite && o in ch.entries && !ch.entries[o].coin.IsSpent()
  }

  /** The state a throwing AddCoin leaves: the map is as before, but the usage of the
      entry it meant to replace has already been taken off. */
  function AfterThrow(ch: Chain, o: OutPoint): Chain
    requires ch.Cached? && o in ch.entries
  {
    ch.(usage := ch.usage - ch.entries[o].coin.DynamicMemoryUsage())
  }

  function AfterAdd(ch: Chain, o: OutPoint, coin: Coin, possibleOverwrite: bool): Chain
    requires ch.Cached? && !AddThrows(ch, o, coin, possibleOverwrite)
  {
    if coin.IsUnspendable() then ch else
      var prev := if o in ch.entries then ch.entries[o] else Entry(EMPTY_COIN, false, false);
      var entry := Entry(coin, true, prev.isFresh || (!possibleOverwrite && !prev.isDirty));
      ch.(entries := ch.entries[o := entry],
          usage := ch.usage + coin.DynamicMemoryUsage() - prev.coin.DynamicMemoryUsage())
  }

  function AfterSpend(ch: Chain, o: OutPoint): Chain
    requires ch.Cached?
  {
    var f := AfterGet(ch, o);
    if o !in f.entries then f else
      var e := f.entries[o];
      f.(entries := if e.isFresh then f.entries - {o} else f.entries[o := Entry(EMPTY_COIN, true, false)],
         usage := f.usage - e.coin.DynamicMemoryUsage())
  }

  function AfterUncache(ch: Chain, o: OutPoint): Chain
    requires ch.Cached?
  {
    if o in ch.entries && !ch.entries[o].isDirty && !ch.entries[o].isFresh then
      ch.(entries := ch.entries - {o}, usage := ch.usage - ch.entries[o].coin.DynamicMemoryUsage())
    else ch
  }

  function Find(m: CoinsMap, o: OutPoint): Option<Entry> {
    if o in m then Some(m[o]) else None
  }

  /** What becomes of the parent's entry when the child's entry is written to it. */
  function MergeEntry(parent: Option<Entry>, child: Option<Entry>): Option<Entry> {
    if child == None || !child.value.isDirty then parent else
      var c := child.value;
      match parent
      case None => if c.isFresh && c.coin.IsSpent() then None else Some(Entry(c.coin, true, c.isFresh))
      case Some(p) => if p.isFresh && c.coin.IsSpent() then None else Some(Entry(c.coin, true, p.isFresh))
  }

  function Merge(parent: CoinsMap, child: CoinsMap): CoinsMap {
    map o | o in parent.Keys + child.Keys && MergeEntry(Find(parent, o), Find(child, o)).Some?
      :: MergeEntry(Find(parent, o), Find(child, o)).value
  }

  predicate Misapplied(parent: Option<Entry>, child: Option<Entry>) {
    && child.Some? && child.value.isDirty && child.value.isFresh
    && parent.Some? && !parent.value.coin.IsSpent()
  }

  ghost predicate WriteThrows(parent: CoinsMap, child: CoinsMap) {
    exists o :: o in child && Misapplied(Find(parent, o), Find(child, o))
  }

  function Store(coins: map<OutPoint, Coin>, child: CoinsMap): map<OutPoint, Coin> {
    map o | && o in coins.Keys + child.Keys
            && (if o in child && child[o].isDirty then !child[o].coin.IsSpent() else o in coins)
      :: if o in child && child[o].isDirty then child[o].coin else coins[o]
  }

  /** What is stored is decided by the entries marked DIRTY: the coin of one that is unspent is
      there, that of a spent one is not, and every other coin is as it was. */
  lemma StoreDecides(coins: map<OutPoint, Coin>, child: CoinsMap, o: OutPoint)
    ensures Look(Database(Store(coins, child)), o) ==
            if o !in child || !child[o].isDirty then Look(Database(coins), o)
            else if child[o].coin.IsSpent() then None
            else Some(child[o].coin)
  {
  }

  ghost function AfterWrite(ch: Chain, child: CoinsMap): Chain {
    match ch
    case Database(coins) => Database(Store(coins, child))
    case Cached(entries, usage, base) =>
      Cached(Merge(entries, child), usage + UsageOf(Merge(entries, child)) - UsageOf(entries), base)
  }

  ghost function AfterFlush(ch: Chain): Chain
    requires ch.Cached?
  {
    Cached(map[], 0, AfterWrite(ch.base, ch.entries))
  }

  // ---------- reading never changes what is shown ----------

  lemma {:induction false} GetKeepsView(ch: Chain, o: OutPoint)
    requires WellFormed(ch)
    ensures WellFormed(AfterGet(ch, o))
    ensures forall p :: Look(AfterGet(ch, o), p) == Look(ch, p)
    ensures UsageExact(ch) ==> UsageExact(AfterGet(ch, o))
    ensures ch.Cached? ==> (o in AfterGet(ch, o).entries <==> Look(ch, o).Some? || o in ch.entries)
    ensures ch.Cached? && o !in ch.entries && Look(ch, o).Some? ==>
              AfterGet(ch, o).entries[o] == Entry(Look(ch, o).value, false, false)
  {
    LookUnspent(ch, o);
    if ch.Cached? && o !in ch.entries {
      GetKeepsView(ch.base, o);
      LookUnspent(ch.base, o);
      if Look(ch.base, o).Some? {
        UsageUpdate(ch.entries, o, Entry(Look(ch.base, o).value, false, false));
      }
    }
  }

  lemma {:induction false} LookUnspent(ch: Chain, o: OutPoint)
    ensures Look(ch, o).Some? ==> !Look(ch, o).value.IsSpent()
  {
    if ch.Cached? { LookUnspent(ch.base, o); }
  }

  lemma UncacheKeepsView(ch: Chain, o: OutPoint)
    requires WellFormed(ch) && ch.Cached?
    ensures WellFormed(AfterUncache(ch, o))
    ensures forall p :: Look(AfterUncache(ch, o), p) == Look(ch, p)
    ensures UsageExact(ch) ==> UsageExact(AfterUncache(ch, o))
  {
    if o in ch.entries { UsageRemove(ch.entries, o); }
  }

  // ---------- adding and spending ----------

  lemma AddShows(ch: Chain, o: OutPoint, coin: Coin, possibleOverwrite: bool)
    requires WellFormed(ch) && ch.Cached? && !coin.IsSpent()
    requires !AddThrows(ch, o, coin, possibleOverwrite)
    ensures forall p :: Look(AfterAdd(ch, o, coin, possibleOverwrite), p) ==
                        if p == o && !coin.IsUnspendable() then Some(coin) else Look(ch, p)
    ensures UsageExact(ch) ==> UsageExact(AfterAdd(ch, o, coin, possibleOverwrite))
  {
    var prev := if o in ch.entries then ch.entries[o] else Entry(EMPTY_COIN, false, false);
    var entry := Entry(coin, true, prev.isFresh || (!possibleOverwrite && !prev.isDirty));
    UsageUpdate(ch.entries, o, entry);
  }

  /** AddCoin keeps the flags truthful exactly when the caller may overwrite or the coin
      is not shown beforehand. */
  lemma AddKeepsFlagsIff(ch: Chain, o: OutPoint, coin: Coin, possibleOverwrite: bool)
    requires WellFormed(ch) && ch.Cached? && !coin.IsSpent() && !coin.IsUnspendable()
    requires !AddThrows(ch, o, coin, possibleOverwrite)
    ensures WellFormed(AfterAdd(ch, o, coin, possibleOverwrite)) <==> possibleOverwrite || Look(ch, o) == None
  {
    var after := AfterAdd(ch, o, coin, possibleOverwrite);
    assert after.entries[o].coin == coin;
    if possibleOverwrite || Look(ch, o) == None {
      forall p | p in after.entries
        ensures EntryOk(after.entries[p], Look(ch.base, p))
      {
        if p != o { assert EntryOk(ch.entries[p], Look(ch.base, p)); }
      }
    } else {
      assert o !in ch.entries;
      assert !EntryOk(after.entries[o], Look(ch.base, o));
    }
  }

  /** Otherwise the replaced coin comes back when the new one is spent. */
  lemma MisusedAddResurrects(ch: Chain, o: OutPoint, coin: Coin)
    requires WellFormed(ch) && ch.Cached? && !coin.IsSpent() && !coin.IsUnspendable()
    requires !AddThrows(ch, o, coin, false) && Look(ch, o).Some?
    ensures Look(AfterSpend(AfterAdd(ch, o, coin, false), o), o) == Look(ch, o)
  {
    assert o !in ch.entries;
  }

  lemma SpendHides(ch: Chain, o: OutPoint)
    requires WellFormed(ch) && ch.Cached?
    ensures WellFormed(AfterSpend(ch, o))
    ensures forall p :: Look(AfterSpend(ch, o), p) == if p == o then None else Look(ch, p)
    ensures UsageExact(ch) ==> UsageExact(AfterSpend(ch, o))
  {
    GetKeepsView(ch, o);
    var f := AfterGet(ch, o);
    if o in f.entries {
      assert EntryOk(f.entries[o], Look(f.base, o));
      UsageRemove(f.entries, o);
      UsageUpdate(f.entries, o, Entry(EMPTY_COIN, true, false));
    }
  }

  // ---------- writing a child into its parent ----------

  /** The three-level argument for one outpoint: `below` is what the grandparent shows. */
  lemma MergeEntryRefines(parent: Option<Entry>, child: Option<Entry>, below: Option<Coin>)
    requires parent.Some? ==> EntryOk(parent.value, below)
    requires child.Some? ==> EntryOk(child.value, LookThrough(parent, below))
    ensures !Misapplied(parent, child)
    ensures MergeEntry(parent, child).Some? ==> EntryOk(MergeEntry(parent, child).value, below)
    ensures LookThrough(MergeEntry(parent, child), below) == LookThrough(child, LookThrough(parent, below))
  {
  }

  lemma {:induction false} WriteRefines(child: CoinsMap, ch: Chain)
    requires WellFormed(Cached(child, 0, ch))
    ensures ch.Cached? ==> !WriteThrows(ch.entries, child)
    ensures WellFormed(AfterWrite(ch, child))
    ensures forall p :: Look(AfterWrite(ch, child), p) == Look(Cached(child, 0, ch), p)
    ensures UsageExact(ch) ==> UsageExact(AfterWrite(ch, child))
  {
    if ch.Cached? {
      forall p
        ensures !Misapplied(Find(ch.entries, p), Find(child, p))
        ensures p in AfterWrite(ch, child).entries ==>
                  EntryOk(AfterWrite(ch, child).entries[p], Look(ch.base, p))
        ensures Look(AfterWrite(ch, child), p) == Look(Cached(child, 0, ch), p)
      {
        MergeEntryRefines(Find(ch.entries, p), Find(child, p), Look(ch.base, p));
      }
    }
  }

  /** Two caches written to the database one after the other leave what their merge leaves
      written at once. */
  lemma StoresCompose(coins: map<OutPoint, Coin>, below: CoinsMap, above: CoinsMap)
    requires WellFormed(Cached(above, 0, Cached(below, 0, Database(coins))))
    ensures Store(Store(coins, below), above) == Store(coins, Merge(below, above))
  {
    var db, low := Database(coins), Cached(below, 0, Database(coins));
    var db1, merged := Database(Store(coins, below)), AfterWrite(low, above);
    assert WellFormed(low) && WellFormed(db);
    assert merged == Cached(Merge(below, above), merged.usage, db);
    assert AfterWrite(db, below) == db1;
    assert AfterWrite(db, Merge(below, above)) == Database(Store(coins, Merge(below, above)));
    assert AfterWrite(db1, above) == Database(Store(Store(coins, below), above));
    hide *;
    WriteRefines(above, low);
    WriteRefines(below, db);
    Rebased(above, 0, low, 0, db1);
    WriteRefines(above, db1);
    Rebased(Merge(below, above), merged.usage, db, 0, db);
    WriteRefines(Merge(below, above), db);
    SameDatabase(Store(Store(coins, below), above), Store(coins, Merge(below, above)));
  }

  lemma Rebased(entries: CoinsMap, usage: int, base: Chain, usage': int, base': Chain)
    requires WellFormed(Cached(entries, usage, base)) && WellFormed(base')
    requires forall o :: Look(base, o) == Look(base', o)
    ensures WellFormed(Cached(entries, usage', base'))
    ensures forall o :: Look(Cached(entries, usage, base), o) == Look(Cached(entries, usage', base'), o)
  {
    hide EntryOk;
  }

  lemma SameDatabase(m: map<OutPoint, Coin>, m': map<OutPoint, Coin>)
    requires WellFormed(Database(m)) && WellFormed(Database(m'))
    requires forall o :: Look(Database(m), o) == Look(Database(m'), o)
    ensures m == m'
  {
    forall o ensures o in m <==> o in m' { assert Look(Database(m), o) == Look(Database(m'), o); }
    forall o | o in m && o in m' ensures m[o] == m'[o] { assert Look(Database(m), o) == Look(Database(m'), o); }
  }

  // ---------- whole runs refine one plain map ----------

  datatype Op = Push | Get(o: OutPoint) | Add(o: OutPoint, coin: Coin, possibleOverwrite: bool)
              | Spend(o: OutPoint) | Uncache(o: OutPoint) | FlushPop

  /** A caller's obligations: there is a cache to work on, added coins are unspent, and a
      coin added without permission to overwrite is not shown yet. */
  predicate Legal(ch: Chain, op: Op) {
    match op
    case Push => true
    case Get(_) => true
    case Add(o, coin, possibleOverwrite) =>
      ch.Cached? && !coin.IsSpent() && (possibleOverwrite || Look(ch, o) == None)
    case Spend(_) => ch.Cached?
    case Uncache(_) => ch.Cached?
    case FlushPop => ch.Cached?
  }

  lemma LegalAddDoesNotThrow(ch: Chain, o: OutPoint, coin: Coin, possibleOverwrite: bool)
    requires Legal(ch, Add(o, coin, possibleOverwrite))
    ensures !AddThrows(ch, o, coin, possibleOverwrite)
  {
  }

  ghost function Apply(ch: Chain, op: Op): Chain
    requires Legal(ch, op)
  {
    match op
    case Push => Cached(map[], 0, ch)
    case Get(o) => AfterGet(ch, o)
    case Add(o, coin, possibleOverwrite) =>
      LegalAddDoesNotThrow(ch, o, coin, possibleOverwrite);
      AfterAdd(ch, o, coin, possibleOverwrite)
    case Spend(o) => AfterSpend(ch, o)
    case Uncache(o) => AfterUncache(ch, o)
    case FlushPop => AfterFlush(ch).base
  }

  function ApplyPlain(m: map<OutPoint, Coin>, op: Op): map<OutPoint, Coin> {
    match op
    case Push => m
    case Get(_) => m
    case Add(o, coin, _) => if coin.IsUnspendable() then m else m[o := coin]
    case Spend(o) => m - {o}
    case Uncache(_) => m
    case FlushPop => m
  }

  ghost predicate Shows(ch: Chain, m: map<OutPoint, Coin>) {
    forall o :: Look(ch, o) == if o in m then Some(m[o]) else None
  }

  lemma StepRefines(ch: Chain, m: map<OutPoint, Coin>, op: Op)
    requires WellFormed(ch) && UsageExact(ch) && Shows(ch, m) && Legal(ch, op)
    ensures WellFormed(Apply(ch, op)) && UsageExact(Apply(ch, op))
    ensures Shows(Apply(ch, op), ApplyPlain(m, op))
  {
    match op
    case Push =>
      assert forall o :: Look(Apply(ch, op), o) == Look(ch, o);
    case Get(o) => GetKeepsView(ch, o);
    case Add(o, coin, possibleOverwrite) =>
      LegalAddDoesNotThrow(ch, o, coin, possibleOverwrite);
      AddShows(ch, o, coin, possibleOverwrite);
      if !coin.IsUnspendable() { AddKeepsFlagsIff(ch, o, coin, possibleOverwrite); }
    case Spend(o) => SpendHides(ch, o);
    case Uncache(o) => UncacheKeepsView(ch, o);
    case FlushPop =>
      assert WellFormed(Cached(ch.entries, 0, ch.base));
      WriteRefines(ch.entries, ch.base);
      assert forall o :: Look(Cached(ch.entries, 0, ch.base), o) == Look(ch, o);
  }

  ghost predicate LegalRun(ch: Chain, ops: seq<Op>)
    decreases |ops|
  {
    ops == [] || (Legal(ch, ops[0]) && LegalRun(Apply(ch, ops[0]), ops[1..]))
  }

  ghost function Run(ch: Chain, ops: seq<Op>): Chain
    requires LegalRun(ch, ops)
    decreases |ops|
  {
    if ops == [] then ch else Run(Apply(ch, ops[0]), ops[1..])
  }

  function RunPlain(m: map<OutPoint, Coin>, ops: seq<Op>): map<OutPoint, Coin>
    decreases |ops|
  {
    if ops == [] then m else RunPlain(ApplyPlain(m, ops[0]), ops[1..])
  }

  /** Any stack of caches, of any depth, behaves like one plain map over any run. */
  lemma {:induction false} RunRefines(ch: Chain, m: map<OutPoint, Coin>, ops: seq<Op>)
    requires WellFormed(ch) && UsageExact(ch) && Shows(ch, m) && LegalRun(ch, ops)
    ensures WellFormed(Run(ch, ops)) && UsageExact(Run(ch, ops))
    ensures Shows(Run(ch, ops), RunPlain(m, ops))
    decreases |ops|
  {
    if ops != [] {
      StepRefines(ch, m, ops[0]);
      RunRefines(Apply(ch, ops[0]), ApplyPlain(m, ops[0]), ops[1..]);
    }
  }

  // ---------- the caches as objects ----------

  /** The database below every cache: it stores the entries that are marked DIRTY. */
  class CoinsViewDb {
    var coins: map<OutPoint, Coin>

    constructor (coins: map<OutPoint, Coin>)
      ensures this.coins == coins
    {
      this.coins := coins;
    }

    method BatchWrite(mapCoins: CoinsMap)
      modifies this
      ensures coins == Store(old(coins), mapCoins)
      ensures forall o :: o in mapCoins && mapCoins[o].isDirty ==>
                Look(Database(coins), o) == if mapCoins[o].coin.IsSpent() then None else Some(mapCoins[o].coin)
      ensures forall o :: o !in mapCoins || !mapCoins[o].isDirty ==>
                Look(Database(coins), o) == Look(Database(old(coins)), o)
    {
      forall o { StoreDecides(coins, mapCoins, o); }
      coins := Store(coins, mapCoins);
      hide Store, Look;
    }
  }

  datatype ViewRef = Db(db: CoinsViewDb) | Cache(cache: CoinsViewCache)

  class CoinsViewCache {
    const base: ViewRef
    var cacheCoins: CoinsMap
    var cachedCoinsUsage: int

    ghost const Repr: set<object>
    ghost const depth: nat

    ghost predicate Valid()
      decreases depth
    {
      match base
      case Db(db) => Repr == {this, db}
      case Cache(c) => c.depth < depth && this !in c.Repr && Repr == {this} + c.Repr && c.Valid()
    }

    /** The stack of which this cache is the top. */
    ghost function State(): Chain
      requires Valid()
      reads Repr
      decreases depth
    {
      Cached(cacheCoins, cachedCoinsUsage,
             match base case Db(db) => Database(db.coins) case Cache(c) => c.State())
    }

    constructor (base: ViewRef)
      requires base.Cache? ==> base.cache.Valid()
      ensures Valid() && this.base == base && fresh(this)
      ensures base.Db? ==> State() == Cached(map[], 0, Database(base.db.coins))
      ensures base.Cache? ==> State() == Cached(map[], 0, base.cache.State())
    {
      this.base := base;
      cacheCoins, cachedCoinsUsage := map[], 0;
      Repr := {this} + (match base case Db(db) => {db} case Cache(c) => c.Repr);
      depth := match base case Db(_) => 0 case Cache(c) => c.depth + 1;
      new;
    }

    method BaseGetCoin(o: OutPoint) returns (found: Option<Coin>)
      requires Valid()
      modifies Repr
      ensures State() == Cached(old(cacheCoins), old(cachedCoinsUsage), AfterGet(old(State()).base, o))
      ensures found == Look(old(State()).base, o)
      decreases depth, 0
    {
      match base {
        case Db(db) =>
          found := if o in db.coins && !db.coins[o].IsSpent() then Some(db.coins[o]) else None;
        case Cache(c) =>
          found := c.GetCoin(o);
      }
    }

    method FetchCoin(o: OutPoint) returns (found: bool)
      requires Valid()
      modifies Repr
      ensures State() == AfterGet(old(State()), o)
      ensures found <==> o in cacheCoins
      decreases depth, 1
    {
      if o in cacheCoins { return true; }
      var tmp := BaseGetCoin(o);
      if tmp.None? { return false; }
      cacheCoins := cacheCoins[o := Entry(tmp.value, false, false)];
      if tmp.value.IsSpent() {
        cacheCoins := cacheCoins[o := Entry(tmp.value, false, true)];
      }
      cachedCoinsUsage := cachedCoinsUsage + tmp.value.DynamicMemoryUsage();
      return true;
    }

    method GetCoin(o: OutPoint) returns (coin: Option<Coin>)
      requires Valid()
      modifies Repr
      ensures State() == AfterGet(old(State()), o)
      ensures coin == Look(old(State()), o)
      decreases depth, 2
    {
      LookUnspent(State(), o);
      var found := FetchCoin(o);
      if found && !cacheCoins[o].coin.IsSpent() {
        coin := Some(cacheCoins[o].coin);
      } else {
        coin := None;
      }
    }

    method HaveCoin(o: OutPoint) returns (have: bool)
      requires Valid()
      modifies Repr
      ensures State() == AfterGet(old(State()), o)
      ensures have <==> Look(old(State()), o).Some?
    {
      var coin := GetCoin(o);
      have := coin.Some?;
    }

    method AddCoin(o: OutPoint, coin: Coin, possibleOverwrite: bool) returns (threw: bool)
      requires Valid() && !coin.IsSpent()
      modifies this
      ensures threw <==> AddThrows(old(State()), o, coin, possibleOverwrite)
      ensures State() == if threw then AfterThrow(old(State()), o)
                         else AfterAdd(old(State()), o, coin, possibleOverwrite)
    {
      if coin.IsUnspendable() { return false; }
      var isFresh := false;
      var entry := Entry(EMPTY_COIN, false, false);
      if o in cacheCoins {
        entry := cacheCoins[o];
        cachedCoinsUsage := cachedCoinsUsage - entry.coin.DynamicMemoryUsage();
      }
      if !possibleOverwrite {
        if !entry.coin.IsSpent() { return true; }
        isFresh := !entry.isDirty;
      }
      cacheCoins := cacheCoins[o := Entry(coin, true, entry.isFresh || isFresh)];
      cachedCoinsUsage := cachedCoinsUsage + coin.DynamicMemoryUsage();
      return false;
    }

    /** `spent` is what the caller passing `moveout` receives. */
    method SpendCoin(o: OutPoint) returns (ok: bool, spent: Coin)
      requires Valid() && WellFormed(State())
      modifies Repr
      ensures State() == AfterSpend(old(State()), o)
      ensures ok <==> Look(old(State()), o).Some? || o in old(cacheCoins)
      ensures Look(old(State()), o).Some? ==> spent == Look(old(State()), o).value
      ensures Look(old(State()), o).None? ==> spent == EMPTY_COIN
    {
      spent := EMPTY_COIN;
      GetKeepsView(State(), o);
      ok := FetchCoin(o);
      if !ok { return; }
      cachedCoinsUsage := cachedCoinsUsage - cacheCoins[o].coin.DynamicMemoryUsage();
      spent := cacheCoins[o].coin;
      if cacheCoins[o].isFresh {
        cacheCoins := cacheCoins - {o};
      } else {
        cacheCoins := cacheCoins[o := Entry(EMPTY_COIN, true, false)];
      }
    }

    method Uncache(o: OutPoint)
      requires Valid()
      modifies this
      ensures State() == AfterUncache(old(State()), o)
    {
      if o in cacheCoins && !cacheCoins[o].isDirty && !cacheCoins[o].isFresh {
        cachedCoinsUsage := cachedCoinsUsage - cacheCoins[o].coin.DynamicMemoryUsage();
        cacheCoins := cacheCoins - {o};
      }
    }

    /** One pass of the loop of BatchWrite. */
    method WriteEntry(o: OutPoint, child: Entry) returns (threw: bool)
      modifies this
      ensures threw <==> Misapplied(Find(old(cacheCoins), o), Some(child))
      ensures threw ==> cacheCoins == old(cacheCoins) && cachedCoinsUsage == old(cachedCoinsUsage)
      ensures !threw ==> Find(cacheCoins, o) == MergeEntry(Find(old(cacheCoins), o), Some(child))
      ensures cacheCoins - {o} == old(cacheCoins) - {o}
      ensures cachedCoinsUsage == old(cachedCoinsUsage) + UsageOf(cacheCoins) - UsageOf(old(cacheCoins))
    {
      if !child.isDirty { return false; }
      if o !in cacheCoins {
        if !(child.isFresh && child.coin.IsSpent()) {
          UsageUpdate(cacheCoins, o, Entry(child.coin, true, child.isFresh));
          cacheCoins := cacheCoins[o := Entry(child.coin, true, child.isFresh)];
          cachedCoinsUsage := cachedCoinsUsage + child.coin.DynamicMemoryUsage();
        }
      } else {
        var us := cacheCoins[o];
        if child.isFresh && !us.coin.IsSpent() { return true; }
        if us.isFresh && child.coin.IsSpent() {
          UsageRemove(cacheCoins, o);
          cachedCoinsUsage := cachedCoinsUsage - us.coin.DynamicMemoryUsage();
          cacheCoins := cacheCoins - {o};
        } else {
          UsageUpdate(cacheCoins, o, Entry(child.coin, true, us.isFresh));
          cachedCoinsUsage := cachedCoinsUsage - us.coin.DynamicMemoryUsage();
          cacheCoins := cacheCoins[o := Entry(child.coin, true, us.isFresh)];
          cachedCoinsUsage := cachedCoinsUsage + child.coin.DynamicMemoryUsage();
        }
      }
      return false;
    }

    /** The child's entries are visited, and erased, in whatever order its map has them. */
    method BatchWrite(mapCoins: CoinsMap) returns (threw: bool)
      modifies this
      ensures threw <==> WriteThrows(old(cacheCoins), mapCoins)
      ensures !threw ==> cacheCoins == Merge(old(cacheCoins), mapCoins)
      ensures !threw ==> cachedCoinsUsage == old(cachedCoinsUsage) + UsageOf(cacheCoins) - UsageOf(old(cacheCoins))
    {
      ghost var parent := cacheCoins;
      var rest := mapCoins.Keys;
      WrittenNone(parent, mapCoins);
      while rest != {}
        invariant Written(parent, mapCoins, rest, cacheCoins)
        invariant cachedCoinsUsage == old(cachedCoinsUsage) + UsageOf(cacheCoins) - UsageOf(parent)
        decreases |rest|
      {
        var o :| o in rest;
        ghost var before := cacheCoins;
        assert Find(before, o) == Find(parent, o);
        threw := WriteEntry(o, mapCoins[o]);
        if threw {
          assert Misapplied(Find(parent, o), Find(mapCoins, o));
          return;
        }
        WrittenOneMore(parent, mapCoins, rest, o, before, cacheCoins);
        rest := rest - {o};
      }
      WrittenAll(parent, mapCoins, cacheCoins);
      return false;
    }

    method Flush() returns (threw: bool)
      requires Valid() && WellFormed(State())
      modifies Repr
      ensures !threw && State() == AfterFlush(old(State()))
    {
      ghost var was := State();
      WriteRefines(was.entries, was.base);
      match base {
        case Db(db) => db.BatchWrite(cacheCoins); threw := false;
        case Cache(c) =>
          assert was.base == c.State();
          threw := c.BatchWrite(cacheCoins);
          assert !threw;
          assert c.State() == AfterWrite(was.base, was.entries);
      }
      assert State().base == AfterWrite(was.base, was.entries);
      cacheCoins := map[];
      cachedCoinsUsage := 0;
    }
  }

  /** What is shown once outputs 0..k of transaction `txid` are added. */
  function WithOutputs(shown: Option<Coin>, o: OutPoint, txid: int, coins: seq<Coin>, k: nat): Option<Coin>
    requires k <= |coins|
  {
    if o.hash == txid && o.n < k && !coins[o.n].IsUnspendable() then Some(coins[o.n]) else shown
  }

  /** Without `check`, only a coinbase may overwrite, so nothing of another transaction
      may be shown yet. */
  method AddCoins(cache: CoinsViewCache, txid: int, coins: seq<Coin>, isCoinBase: bool, check: bool)
    requires cache.Valid() && WellFormed(cache.State()) && UsageExact(cache.State())
    requires forall i :: 0 <= i < |coins| ==> !coins[i].IsSpent()
    requires check || isCoinBase || forall o: OutPoint :: o.hash == txid ==> Look(cache.State(), o) == None
    modifies cache.Repr
    ensures WellFormed(cache.State()) && UsageExact(cache.State())
    ensures forall o :: Look(cache.State(), o) == WithOutputs(Look(old(cache.State()), o), o, txid, coins, |coins|)
  {
    ghost var was := cache.State();
    for i := 0 to |coins|
      invariant WellFormed(cache.State()) && UsageExact(cache.State())
      invariant forall o :: Look(cache.State(), o) == WithOutputs(Look(was, o), o, txid, coins, i)
    {
      AddOutput(cache, OutPoint(txid, i), coins[i], isCoinBase, check);
      hide Look, WellFormed, UsageExact;
    }
  }

  method AddOutput(cache: CoinsViewCache, o: OutPoint, coin: Coin, isCoinBase: bool, check: bool)
    requires cache.Valid() && WellFormed(cache.State()) && UsageExact(cache.State()) && !coin.IsSpent()
    requires check || isCoinBase || Look(cache.State(), o) == None
    modifies cache.Repr
    ensures WellFormed(cache.State()) && UsageExact(cache.State())
    ensures forall p :: Look(cache.State(), p) ==
                        if p == o && !coin.IsUnspendable() then Some(coin) else Look(old(cache.State()), p)
  {
    var overwrite := isCoinBase;
    hide Look, WellFormed, UsageExact, EntryOk;
    if check {
      GetKeepsView(cache.State(), o);
      overwrite := cache.HaveCoin(o);
    }
    ghost var now := cache.State();
    LegalAddDoesNotThrow(now, o, coin, overwrite);
    AddShows(now, o, coin, overwrite);
    if !coin.IsUnspendable() { AddKeepsFlagsIff(now, o, coin, overwrite); }
    var threw := cache.AddCoin(o, coin, overwrite);
  }

  /** The loop of BatchWrite has yet to visit `rest`: the parent's map shows every other
      entry of the child as merged, and none of them was misapplied. */
  ghost predicate Written(parent: CoinsMap, child: CoinsMap, rest: set<OutPoint>, now: CoinsMap) {
    && rest <= child.Keys
    && (forall o :: Find(now, o) == MergeEntry(Find(parent, o), if o in rest then None else Find(child, o)))
    && forall o :: o in child && o !in rest ==> !Misapplied(Find(parent, o), Find(child, o))
  }

  lemma WrittenNone(parent: CoinsMap, child: CoinsMap)
    ensures Written(parent, child, child.Keys, parent)
  {
  }

  lemma WrittenOneMore(parent: CoinsMap, child: CoinsMap, rest: set<OutPoint>, o: OutPoint,
                       before: CoinsMap, after: CoinsMap)
    requires Written(parent, child, rest, before) && o in rest
    requires before - {o} == after - {o}
    requires !Misapplied(Find(parent, o), Some(child[o]))
    requires Find(after, o) == MergeEntry(Find(parent, o), Some(child[o]))
    ensures Written(parent, child, rest - {o}, after)
  {
    forall p | p != o
      ensures Find(after, p) == Find(before, p)
    {
      assert Find(after, p) == Find(after - {o}, p) == Find(before - {o}, p);
    }
  }

  lemma WrittenAll(parent: CoinsMap, child: CoinsMap, now: CoinsMap)
    requires Written(parent, child, {}, now)
    ensures now == Merge(parent, child) && !WriteThrows(parent, child)
  {
    var goal := Merge(parent, child);
    forall o
      ensures Find(now, o) == Find(goal, o)
    {
      assert Find(now, o) == MergeEntry(Find(parent, o), Find(child, o));
    }
    assert forall o :: o in now <==> Find(now, o).Some?;
    assert forall o :: o in goal <==> Find(goal, o).Some?;
    assert now.Keys == goal.Keys;
    forall o | o in now
      ensures now[o] == goal[o]
    {
      assert Find(now, o) == Find(goal, o);
    }
  }
}
