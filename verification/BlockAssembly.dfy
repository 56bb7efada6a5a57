/** Filling a block from the pool of transactions: best first, parents before children, within
    limits of size and of signature checks. */
module BlockAssembly {
  import opened Basics

  const MAX_BLOCK_SIZE := 20000000
  const MAX_BLOCK_SIGOPS := MAX_BLOCK_SIZE / 50
  const COIN := 100000000

  type Hash = nat

  datatype OutPoint = OutPoint(hash: Hash, n: nat)

  /** `fEligible`: neither coinbase nor coinstake, and final. */
  datatype Tx = Tx(hash: Hash, vin: seq<OutPoint>, nSize: nat, nSigOps: nat, nTime: int, fEligible: bool)

  datatype TxPriority = TxPriority(dPriority: real, dFeePerKb: real, tx: Tx)

  datatype COrphan = COrphan(tx: Tx, setDependsOn: set<Hash>, dPriority: real, dFeePerKb: real)

  /** A transaction in the block, with the checks and the fee it was counted with. */
  datatype Placed = Placed(tx: Tx, nSigOps: nat, nFees: int)

  /** What the chain, the clock and the scripts say, from outside this model: where outputs are,
      the scores, the adjusted time when the n-th transaction is considered, and, given the
      transactions placed before, what comes of fetching the inputs of a transaction and of
      connecting them. */
  datatype World = World(onDisk: OutPoint -> bool, priority: Tx -> real, feePerKb: Tx -> real,
                         clock: nat -> int, fProofOfStake: bool, nCoinbaseTime: int,
                         fetches: (Tx, seq<Placed>) -> bool, p2shSigOps: (Tx, seq<Placed>) -> nat,
                         fees: (Tx, seq<Placed>) -> int, connects: (Tx, seq<Placed>) -> bool)

  type Pool = map<Hash, Tx>

  predicate PoolOk(pool: Pool) { forall h :: h in pool ==> pool[h].hash == h }

  /** An input that is neither on disk nor in the pool. */
  predicate Missing(w: World, pool: Pool, prevout: OutPoint) { !w.onDisk(prevout) && prevout.hash !in pool }

  predicate NoneMissing(w: World, pool: Pool, tx: Tx, n: nat)
    requires n <= |tx.vin|
  {
    forall k :: 0 <= k < n ==> !Missing(w, pool, tx.vin[k])
  }

  predicate Usable(w: World, pool: Pool, tx: Tx) { tx.fEligible && NoneMissing(w, pool, tx, |tx.vin|) }

  /** The transactions that can come into the block. */
  function Usables(w: World, pool: Pool): Pool { map h | h in pool && Usable(w, pool, pool[h]) :: pool[h] }

  /** Where an input is missing, the transaction was not waiting for another before. */
  predicate Connected(w: World, pool: Pool) {
    forall h, n :: h in pool && pool[h].fEligible && 0 <= n < |pool[h].vin| && Missing(w, pool, pool[h].vin[n]) ==>
      NeedsUpto(w, pool[h], n) == {} || !NoneMissing(w, pool, pool[h], n)
  }

  /** What a transaction has to wait for. */
  function Needs(w: World, tx: Tx): set<Hash> { NeedsUpto(w, tx, |tx.vin|) }

  function NeedsUpto(w: World, tx: Tx, n: nat): set<Hash>
    requires n <= |tx.vin|
  {
    set i | 0 <= i < n && !w.onDisk(tx.vin[i]) :: tx.vin[i].hash
  }

  function Hashes(placed: seq<Placed>): set<Hash> { set p | p in placed :: p.tx.hash }

  // ---------- the order ----------

  /** The order of the queue: by priority and then fee, or by fee and then priority. */
  predicate Below(byFee: bool, a: TxPriority, b: TxPriority) {
    if byFee then
      if a.dFeePerKb == b.dFeePerKb then a.dPriority < b.dPriority else a.dFeePerKb < b.dFeePerKb
    else
      if a.dPriority == b.dPriority then a.dFeePerKb < b.dFeePerKb else a.dPriority < b.dPriority
  }

  lemma BelowIsOrder(byFee: bool, a: TxPriority, b: TxPriority, c: TxPriority)
    ensures !Below(byFee, a, a)
    ensures Below(byFee, a, b) ==> !Below(byFee, b, a)
    ensures !Below(byFee, a, b) && !Below(byFee, b, c) ==> !Below(byFee, a, c)
  {
  }

  function Without(queue: seq<TxPriority>, i: nat): seq<TxPriority>
    requires i < |queue|
  {
    queue[..i] + queue[i + 1..]
  }

  ghost predicate IsBest(queue: seq<TxPriority>, byFee: bool, best: nat)
    requires best < |queue|
  {
    forall j :: 0 <= j < |queue| ==> !Below(byFee, queue[best], queue[j])
  }

  /** The place of an entry that no other comes before. */
  method Best(queue: seq<TxPriority>, byFee: bool) returns (best: nat)
    requires queue != []
    ensures best < |queue| && IsBest(queue, byFee, best)
  {
    best := 0;
    var j := 1;
    while j < |queue|
      invariant best < j <= |queue| && forall k :: 0 <= k < j ==> !Below(byFee, queue[best], queue[k])
    {
      if Below(byFee, queue[best], queue[j]) {
        forall k | 0 <= k < j ensures !Below(byFee, queue[j], queue[k]) {
          BelowIsOrder(byFee, queue[j], queue[best], queue[k]);
        }
        best := j;
      }
      j := j + 1;
    }
  }

  function Scored(w: World, tx: Tx): TxPriority { TxPriority(w.priority(tx), w.feePerKb(tx), tx) }

  function EntryOf(o: COrphan): TxPriority { TxPriority(o.dPriority, o.dFeePerKb, o.tx) }

  // ---------- who waits for whom ----------

  /** The list of waiting transactions: each of the pool, waiting for something, and listed
      once. */
  ghost predicate OrphansOk(w: World, pool: Pool, orphans: seq<COrphan>) {
    && (forall i :: 0 <= i < |orphans| ==>
          var tx := orphans[i].tx;
          tx.hash in pool && pool[tx.hash] == tx && Needs(w, tx) != {} && EntryOf(orphans[i]) == Scored(w, tx))
    && forall i, j :: 0 <= i < j < |orphans| ==> orphans[i].tx.hash != orphans[j].tx.hash
  }

  /** The waiting transactions are found from everything they wait for. */
  ghost predicate DependersOk(w: World, orphans: seq<COrphan>, dependers: map<Hash, seq<nat>>) {
    && (forall h, k :: h in dependers && 0 <= k < |dependers[h]| ==> dependers[h][k] < |orphans|)
    && forall i, h :: 0 <= i < |orphans| && h in Needs(w, orphans[i].tx) ==> h in dependers && i in dependers[h]
  }

  /** Each waits for what it needs and is not there yet; `hash` has just come, and those in
      `told` know. */
  ghost predicate Waiting(w: World, orphans: seq<COrphan>, there: set<Hash>, hash: Hash, told: set<nat>) {
    forall i :: 0 <= i < |orphans| ==>
      orphans[i].setDependsOn == Needs(w, orphans[i].tx) - there - if i in told then {hash} else {}
  }

  /** The queue holds, and `taken` has seen, exactly the transactions that wait for nothing. */
  ghost predicate QueueOk(w: World, pool: Pool, orphans: seq<COrphan>, queue: seq<TxPriority>, taken: set<Hash>) {
    QueueFits(w, pool, queue, taken) && AllReached(w, pool, orphans, taken + Queued(queue))
  }

  ghost predicate QueueFits(w: World, pool: Pool, queue: seq<TxPriority>, taken: set<Hash>) {
    && (forall i :: 0 <= i < |queue| ==>
          var tx := queue[i].tx; tx.hash in pool && pool[tx.hash] == tx && queue[i] == Scored(w, tx))
    && (forall i, j :: 0 <= i < j < |queue| ==> queue[i].tx.hash != queue[j].tx.hash)
    && (forall i :: 0 <= i < |queue| ==> queue[i].tx.hash !in taken)
    && forall h :: h in taken ==> h in pool
  }

  ghost predicate AllReached(w: World, pool: Pool, orphans: seq<COrphan>, reached: set<Hash>) {
    && (forall i :: 0 <= i < |orphans| ==> (orphans[i].setDependsOn == {} <==> orphans[i].tx.hash in reached))
    && forall h :: h in pool ==> if Needs(w, pool[h]) == {} then h in reached else Listed(orphans, h)
  }

  ghost function Queued(queue: seq<TxPriority>): set<Hash> { set e | e in queue :: e.tx.hash }

  ghost predicate Listed(orphans: seq<COrphan>, h: Hash) {
    exists i :: 0 <= i < |orphans| && orphans[i].tx.hash == h
  }

  /** Every input is on disk or from a transaction placed before, and none is placed twice. */
  ghost predicate InOrder(w: World, placed: seq<Placed>) {
    && (forall k :: 0 <= k < |placed| ==> Needs(w, placed[k].tx) <= Hashes(placed[..k]))
    && forall j, k :: 0 <= j < k < |placed| ==> placed[j].tx.hash != placed[k].tx.hash
  }

  lemma InOrderInputs(w: World, placed: seq<Placed>, k: nat, i: nat)
    requires InOrder(w, placed) && k < |placed| && i < |placed[k].tx.vin|
    ensures w.onDisk(placed[k].tx.vin[i]) || exists j :: 0 <= j < k && placed[j].tx.hash == placed[k].tx.vin[i].hash
  {
    var tx := placed[k].tx;
    if !w.onDisk(tx.vin[i]) {
      assert tx.vin[i].hash in Needs(w, tx);
      var p :| p in placed[..k] && p.tx.hash == tx.vin[i].hash;
      var j :| 0 <= j < k && placed[..k][j] == p;
    }
  }

  // ---------- the steps ----------

  /** Taking an entry off the queue. */
  lemma TakeKeeps(w: World, pool: Pool, orphans: seq<COrphan>, queue: seq<TxPriority>, taken: set<Hash>, i: nat)
    requires QueueOk(w, pool, orphans, queue, taken) && i < |queue|
    ensures QueueOk(w, pool, orphans, Without(queue, i), taken + {queue[i].tx.hash}) && queue[i].tx.hash !in taken
  {
    hide Queued, Without, AllReached, QueueFits;
    TakeFits(w, pool, queue, taken, i);
    WithoutQueued(queue, i);
    assert taken + {queue[i].tx.hash} + Queued(Without(queue, i)) == taken + Queued(queue);
  }

  lemma TakeFits(w: World, pool: Pool, queue: seq<TxPriority>, taken: set<Hash>, i: nat)
    requires QueueFits(w, pool, queue, taken) && i < |queue|
    ensures QueueFits(w, pool, Without(queue, i), taken + {queue[i].tx.hash}) && queue[i].tx.hash !in taken
  {
    var queue' := Without(queue, i);
    assert forall n :: 0 <= n < |queue'| ==> queue'[n] == queue[if n < i then n else n + 1];
    hide Without, Scored;
  }

  lemma WithoutQueued(queue: seq<TxPriority>, i: nat)
    requires i < |queue|
    ensures Queued(Without(queue, i)) + {queue[i].tx.hash} == Queued(queue)
  {
    forall e | e in queue ensures e.tx.hash in Queued(Without(queue, i)) + {queue[i].tx.hash} {
      var n :| 0 <= n < |queue| && queue[n] == e;
      if n != i { assert Without(queue, i)[if n < i then n else n - 1] == e; }
    }
  }

  /** What is taken waits for nothing: all it needs is there. */
  lemma TakenIsReady(w: World, pool: Pool, orphans: seq<COrphan>, queue: seq<TxPriority>, taken: set<Hash>,
                     there: set<Hash>, h: Hash)
    requires OrphansOk(w, pool, orphans) && Waiting(w, orphans, there, 0, {}) && QueueOk(w, pool, orphans, queue, taken)
    requires h in pool
    ensures h in taken + Queued(queue) <==> Needs(w, pool[h]) <= there
  {
    hide Queued, Needs;
    if Needs(w, pool[h]) != {} {
      var i :| 0 <= i < |orphans| && orphans[i].tx.hash == h;
      assert orphans[i].tx == pool[h] && orphans[i].setDependsOn == Needs(w, pool[h]) - there;
      assert orphans[i].setDependsOn == {} <==> Needs(w, pool[h]) <= there by {
        EmptyDifference(Needs(w, pool[h]), there);
      }
    }
  }

  lemma EmptyDifference(a: set<Hash>, b: set<Hash>)
    ensures a - b == {} <==> a <= b
  {
    if a - b == {} {
      forall x | x in a ensures x in b { assert x !in a - b; }
    }
  }

  lemma PlaceKeeps(w: World, placed: seq<Placed>, p: Placed)
    requires InOrder(w, placed) && Needs(w, p.tx) <= Hashes(placed) && p.tx.hash !in Hashes(placed)
    ensures InOrder(w, placed + [p]) && Hashes(placed + [p]) == Hashes(placed) + {p.tx.hash}
  {
    var placed' := placed + [p];
    assert forall k :: 0 <= k < |placed| ==> placed'[k] == placed[k] && placed'[..k] == placed[..k];
    assert placed'[..|placed|] == placed;
    forall j | 0 <= j < |placed| ensures placed[j].tx.hash != p.tx.hash { assert placed[j] in placed; }
    hide Needs;
  }

  /** One of those waiting hears that `hash` has come. */
  function Told(o: COrphan, hash: Hash): COrphan { o.(setDependsOn := o.setDependsOn - {hash}) }

  lemma TellWaiting(w: World, orphans: seq<COrphan>, there: set<Hash>, hash: Hash, told: set<nat>, i: nat)
    requires Waiting(w, orphans, there, hash, told) && i < |orphans|
    ensures Waiting(w, orphans[i := Told(orphans[i], hash)], there, hash, told + {i})
    ensures orphans[i].setDependsOn == {} ==> orphans[i := Told(orphans[i], hash)] == orphans
  {
    hide Needs;
    if orphans[i].setDependsOn == {} {
      assert Told(orphans[i], hash) == orphans[i];
    }
  }

  lemma TellListed(orphans: seq<COrphan>, i: nat, hash: Hash)
    requires i < |orphans|
    ensures forall h :: Listed(orphans, h) ==> Listed(orphans[i := Told(orphans[i], hash)], h)
  {
    var orphans' := orphans[i := Told(orphans[i], hash)];
    forall h | Listed(orphans, h) ensures Listed(orphans', h) {
      var n :| 0 <= n < |orphans| && orphans[n].tx.hash == h;
      assert orphans'[n].tx.hash == h;
    }
  }

  lemma TellStill(w: World, pool: Pool, orphans: seq<COrphan>, queue: seq<TxPriority>, taken: set<Hash>, hash: Hash,
                  i: nat)
    requires OrphansOk(w, pool, orphans) && QueueOk(w, pool, orphans, queue, taken) && i < |orphans|
    requires Told(orphans[i], hash).setDependsOn != {}
    ensures QueueOk(w, pool, orphans[i := Told(orphans[i], hash)], queue, taken)
  {
    var orphans' := orphans[i := Told(orphans[i], hash)];
    TellListed(orphans, i, hash);
    hide Needs, Queued, Listed;
  }

  lemma TellLast(w: World, pool: Pool, orphans: seq<COrphan>, queue: seq<TxPriority>, taken: set<Hash>, hash: Hash,
                 i: nat)
    requires OrphansOk(w, pool, orphans) && QueueOk(w, pool, orphans, queue, taken) && i < |orphans|
    requires orphans[i].setDependsOn != {} && Told(orphans[i], hash).setDependsOn == {}
    ensures QueueOk(w, pool, orphans[i := Told(orphans[i], hash)], queue + [EntryOf(orphans[i])], taken)
  {
    var e := EntryOf(orphans[i]);
    assert Queued(queue + [e]) == Queued(queue) + {e.tx.hash};
    assert e == Scored(w, e.tx) && e.tx.hash in pool && pool[e.tx.hash] == e.tx && e.tx.hash !in taken + Queued(queue);
    LastReached(w, pool, orphans, taken + Queued(queue), hash, i);
    hide Needs, Queued, AllReached, QueueFits;
    JoinFits(w, pool, queue, taken, e);
    assert taken + Queued(queue + [e]) == taken + Queued(queue) + {e.tx.hash};
  }

  lemma LastReached(w: World, pool: Pool, orphans: seq<COrphan>, reached: set<Hash>, hash: Hash, i: nat)
    requires OrphansOk(w, pool, orphans) && AllReached(w, pool, orphans, reached) && i < |orphans|
    requires Told(orphans[i], hash).setDependsOn == {}
    ensures AllReached(w, pool, orphans[i := Told(orphans[i], hash)], reached + {orphans[i].tx.hash})
  {
    TellListed(orphans, i, hash);
    hide Needs, Listed;
  }

  lemma JoinFits(w: World, pool: Pool, queue: seq<TxPriority>, taken: set<Hash>, e: TxPriority)
    requires QueueFits(w, pool, queue, taken) && e.tx.hash !in taken + Queued(queue)
    requires e == Scored(w, e.tx) && e.tx.hash in pool && pool[e.tx.hash] == e.tx
    ensures QueueFits(w, pool, queue + [e], taken)
  {
    assert forall n :: 0 <= n < |queue| ==> queue[n] in queue && queue[n].tx.hash in Queued(queue);
    hide Queued;
  }

  lemma SameTxs(w: World, pool: Pool, orphans: seq<COrphan>, dependers: map<Hash, seq<nat>>, i: nat, hash: Hash)
    requires OrphansOk(w, pool, orphans) && DependersOk(w, orphans, dependers) && i < |orphans|
    ensures OrphansOk(w, pool, orphans[i := Told(orphans[i], hash)])
    ensures DependersOk(w, orphans[i := Told(orphans[i], hash)], dependers)
  {
    hide Needs;
  }

  /** When all that could wait for it have been told, it is there. */
  lemma AllTold(w: World, orphans: seq<COrphan>, dependers: map<Hash, seq<nat>>, there: set<Hash>, hash: Hash,
                told: set<nat>)
    requires DependersOk(w, orphans, dependers) && Waiting(w, orphans, there, hash, told)
    requires hash in dependers ==> forall i :: i in dependers[hash] ==> i in told
    requires hash !in dependers ==> told == {}
    ensures Waiting(w, orphans, there + {hash}, 0, {})
  {
    hide Needs;
    forall i | 0 <= i < |orphans|
      ensures orphans[i].setDependsOn == Needs(w, orphans[i].tx) - (there + {hash}) - {}
    {
      if hash in Needs(w, orphans[i].tx) { assert i in told; }
    }
  }

  /** Tells every transaction that waits for this one; those that wait for nothing else join
      the queue. */
  method Release(ghost w: World, ghost pool: Pool, orphans0: seq<COrphan>, dependers: map<Hash, seq<nat>>,
                 queue0: seq<TxPriority>, ghost taken: set<Hash>, ghost there: set<Hash>, hash: Hash)
    returns (orphans: seq<COrphan>, queue: seq<TxPriority>)
    requires OrphansOk(w, pool, orphans0) && DependersOk(w, orphans0, dependers)
    requires Waiting(w, orphans0, there, 0, {}) && QueueOk(w, pool, orphans0, queue0, taken)
    ensures OrphansOk(w, pool, orphans) && DependersOk(w, orphans, dependers)
    ensures Waiting(w, orphans, there + {hash}, 0, {}) && QueueOk(w, pool, orphans, queue, taken)
  {
    hide *;
    orphans, queue := orphans0, queue0;
    ghost var told: set<nat> := {};
    NobodyTold(w, orphans, there, hash);
    if hash in dependers { orphans, queue, told := TellAll(w, pool, orphans, dependers, queue, taken, there, hash); }
    AllTold(w, orphans, dependers, there, hash, told);
  }

  method TellAll(ghost w: World, ghost pool: Pool, orphans0: seq<COrphan>, dependers: map<Hash, seq<nat>>,
                 queue0: seq<TxPriority>, ghost taken: set<Hash>, ghost there: set<Hash>, hash: Hash)
    returns (orphans: seq<COrphan>, queue: seq<TxPriority>, ghost told: set<nat>)
    requires OrphansOk(w, pool, orphans0) && DependersOk(w, orphans0, dependers) && hash in dependers
    requires Waiting(w, orphans0, there, hash, {}) && QueueOk(w, pool, orphans0, queue0, taken)
    ensures OrphansOk(w, pool, orphans) && DependersOk(w, orphans, dependers)
    ensures forall i :: i in dependers[hash] ==> i in told
    ensures Waiting(w, orphans, there, hash, told) && QueueOk(w, pool, orphans, queue, taken)
  {
    hide *;
    orphans, queue, told := orphans0, queue0, {};
    var list := dependers[hash];
    TellingStart(w, pool, orphans, dependers, queue, taken, there, hash);
    var n := 0;
    while n < |list|
      invariant n <= |list| && Telling(w, pool, orphans, dependers, queue, taken, there, hash, n, told)
    {
      TellingIs(w, pool, orphans, dependers, queue, taken, there, hash, n, told);
      ghost var before, queueBefore := orphans, queue;
      orphans, queue := Tell(w, pool, orphans, dependers, queue, taken, hash, list[n]);
      TellingStep(w, pool, before, orphans, dependers, queueBefore, queue, taken, there, hash, n, told);
      told := told + {list[n]};
      n := n + 1;
    }
    TellingIs(w, pool, orphans, dependers, queue, taken, there, hash, n, told);
  }

  /** The first n of those that wait for `hash` have been told. */
  ghost predicate Telling(w: World, pool: Pool, orphans: seq<COrphan>, dependers: map<Hash, seq<nat>>,
                          queue: seq<TxPriority>, taken: set<Hash>, there: set<Hash>, hash: Hash, n: nat,
                          told: set<nat>)
  {
    && OrphansOk(w, pool, orphans) && DependersOk(w, orphans, dependers)
    && Waiting(w, orphans, there, hash, told) && QueueOk(w, pool, orphans, queue, taken)
    && hash in dependers && n <= |dependers[hash]| && forall m :: 0 <= m < n ==> dependers[hash][m] in told
  }

  lemma TellingStart(w: World, pool: Pool, orphans: seq<COrphan>, dependers: map<Hash, seq<nat>>,
                     queue: seq<TxPriority>, taken: set<Hash>, there: set<Hash>, hash: Hash)
    requires OrphansOk(w, pool, orphans) && DependersOk(w, orphans, dependers) && hash in dependers
    requires Waiting(w, orphans, there, hash, {}) && QueueOk(w, pool, orphans, queue, taken)
    ensures Telling(w, pool, orphans, dependers, queue, taken, there, hash, 0, {})
  {
    hide OrphansOk, DependersOk, Waiting, QueueOk;
  }

  lemma TellingIs(w: World, pool: Pool, orphans: seq<COrphan>, dependers: map<Hash, seq<nat>>, queue: seq<TxPriority>,
                  taken: set<Hash>, there: set<Hash>, hash: Hash, n: nat, told: set<nat>)
    requires Telling(w, pool, orphans, dependers, queue, taken, there, hash, n, told)
    ensures OrphansOk(w, pool, orphans) && DependersOk(w, orphans, dependers) && QueueOk(w, pool, orphans, queue, taken)
    ensures Waiting(w, orphans, there, hash, told) && hash in dependers
    ensures n < |dependers[hash]| ==> dependers[hash][n] < |orphans|
    ensures n == |dependers[hash]| ==> forall i :: i in dependers[hash] ==> i in told
  {
    hide OrphansOk, Waiting, QueueOk;
    if n < |dependers[hash]| { DependerThere(w, orphans, dependers, hash, n); }
  }

  lemma TellingStep(w: World, pool: Pool, orphans: seq<COrphan>, orphans': seq<COrphan>, dependers: map<Hash, seq<nat>>,
                    queue: seq<TxPriority>, queue': seq<TxPriority>, taken: set<Hash>, there: set<Hash>, hash: Hash,
                    n: nat, told: set<nat>)
    requires hash in dependers && n < |dependers[hash]| && dependers[hash][n] < |orphans|
    requires Telling(w, pool, orphans, dependers, queue, taken, there, hash, n, told)
    requires orphans' == orphans[dependers[hash][n] := Told(orphans[dependers[hash][n]], hash)]
    requires OrphansOk(w, pool, orphans') && DependersOk(w, orphans', dependers)
    requires QueueOk(w, pool, orphans', queue', taken)
    ensures Telling(w, pool, orphans', dependers, queue', taken, there, hash, n + 1, told + {dependers[hash][n]})
  {
    TellWaiting(w, orphans, there, hash, told, dependers[hash][n]);
    hide OrphansOk, DependersOk, Waiting, QueueOk, Told;
  }

  lemma DependerThere(w: World, orphans: seq<COrphan>, dependers: map<Hash, seq<nat>>, hash: Hash, n: nat)
    requires DependersOk(w, orphans, dependers) && hash in dependers && n < |dependers[hash]|
    ensures dependers[hash][n] < |orphans|
  {
  }

  lemma NobodyTold(w: World, orphans: seq<COrphan>, there: set<Hash>, hash: Hash)
    requires Waiting(w, orphans, there, 0, {})
    ensures Waiting(w, orphans, there, hash, {})
  {
    hide Needs;
  }

  method Tell(ghost w: World, ghost pool: Pool, orphans0: seq<COrphan>, ghost dependers: map<Hash, seq<nat>>,
              queue0: seq<TxPriority>, ghost taken: set<Hash>, hash: Hash, i: nat)
    returns (orphans: seq<COrphan>, queue: seq<TxPriority>)
    requires OrphansOk(w, pool, orphans0) && DependersOk(w, orphans0, dependers)
    requires QueueOk(w, pool, orphans0, queue0, taken)
    requires i < |orphans0|
    ensures orphans == orphans0[i := Told(orphans0[i], hash)]
    ensures OrphansOk(w, pool, orphans) && DependersOk(w, orphans, dependers) && QueueOk(w, pool, orphans, queue, taken)
  {
    orphans, queue := orphans0, queue0;
    SameTxs(w, pool, orphans0, dependers, i, hash);
    hide OrphansOk, DependersOk, QueueOk;
    if orphans[i].setDependsOn != {} {
      orphans := orphans[i := Told(orphans[i], hash)];
      if orphans[i].setDependsOn == {} {
        TellLast(w, pool, orphans0, queue0, taken, hash, i);
        queue := queue + [EntryOf(orphans[i])];
        assert EntryOf(orphans[i]) == EntryOf(orphans0[i]);
      } else {
        TellStill(w, pool, orphans0, queue0, taken, hash, i);
      }
    } else {
      assert Told(orphans[i], hash) == orphans[i];
      assert orphans[i := orphans[i]] == orphans;
    }
  }

  // ---------- sorting the pool into those that wait and those that do not ----------

  /** The entries of one more waiting transaction, under every hash it needs. */
  ghost predicate Extended(dependers: map<Hash, seq<nat>>, dependers': map<Hash, seq<nat>>, i: nat, needs: set<Hash>) {
    && (forall h :: h in dependers' <==> h in dependers || h in needs)
    && (forall h :: h in dependers ==> forall k :: k in dependers[h] ==> k in dependers'[h])
    && (forall h, k :: h in dependers' && k in dependers'[h] ==> k == i || (h in dependers && k in dependers[h]))
    && forall h :: h in needs ==> i in dependers'[h]
  }

  lemma ExtendedMore(dependers: map<Hash, seq<nat>>, dependers': map<Hash, seq<nat>>, i: nat, needs: set<Hash>, h: Hash)
    requires Extended(dependers, dependers', i, needs)
    ensures Extended(dependers, dependers'[h := (if h in dependers' then dependers'[h] else []) + [i]], i, needs + {h})
  {
  }

  /** Reads the previous transaction of every input; if one is neither on disk nor in the pool,
      the transaction is left out. */
  method ScanInputs(w: World, pool: Pool, tx: Tx, orphans0: seq<COrphan>, dependers0: map<Hash, seq<nat>>)
    returns (fMissingInputs: bool, orphans: seq<COrphan>, dependers: map<Hash, seq<nat>>)
    requires forall n :: 0 <= n < |tx.vin| && Missing(w, pool, tx.vin[n]) ==>
               NeedsUpto(w, tx, n) == {} || !NoneMissing(w, pool, tx, n)
    ensures fMissingInputs <==> !NoneMissing(w, pool, tx, |tx.vin|)
    ensures fMissingInputs || Needs(w, tx) == {} ==> orphans == orphans0 && dependers == dependers0
    ensures !fMissingInputs && Needs(w, tx) != {} ==>
      && orphans == orphans0 + [COrphan(tx, Needs(w, tx), 0.0, 0.0)]
      && Extended(dependers0, dependers, |orphans0|, Needs(w, tx))
  {
    fMissingInputs, orphans, dependers := false, orphans0, dependers0;
    var n := 0;
    assert Extended(dependers0, dependers, |orphans0|, {}) && NeedsUpto(w, tx, 0) == {};
    hide Extended, NeedsUpto;
    while n < |tx.vin|
      invariant n <= |tx.vin| && Extended(dependers0, dependers, |orphans0|, NeedsUpto(w, tx, n))
      invariant !fMissingInputs && NoneMissing(w, pool, tx, n)
      invariant if NeedsUpto(w, tx, n) == {} then orphans == orphans0 && dependers == dependers0
                else orphans == orphans0 + [COrphan(tx, NeedsUpto(w, tx, n), 0.0, 0.0)]
    {
      var prevout := tx.vin[n];
      NeedsNext(w, tx, n);
      if !w.onDisk(prevout) {
        if prevout.hash !in pool {
          assert Missing(w, pool, prevout);
          fMissingInputs := true;
          return;
        }
        ExtendedMore(dependers0, dependers, |orphans0|, NeedsUpto(w, tx, n), prevout.hash);
        if |orphans| == |orphans0| { orphans := orphans + [COrphan(tx, {}, 0.0, 0.0)]; }
        var waiting := if prevout.hash in dependers then dependers[prevout.hash] else [];
        dependers := dependers[prevout.hash := waiting + [|orphans0|]];
        var porphan := orphans[|orphans0|];
        orphans := orphans[|orphans0| := porphan.(setDependsOn := porphan.setDependsOn + {prevout.hash})];
        assert orphans == orphans0 + [COrphan(tx, NeedsUpto(w, tx, n) + {prevout.hash}, 0.0, 0.0)];
      }
      n := n + 1;
    }
  }

  lemma NeedsNext(w: World, tx: Tx, n: nat)
    requires n < |tx.vin|
    ensures w.onDisk(tx.vin[n]) ==> NeedsUpto(w, tx, n + 1) == NeedsUpto(w, tx, n)
    ensures !w.onDisk(tx.vin[n]) ==> NeedsUpto(w, tx, n + 1) == NeedsUpto(w, tx, n) + {tx.vin[n].hash}
  {
  }

  /** The part of the pool seen so far is sorted. */
  ghost predicate Collecting(w: World, seen: Pool, orphans: seq<COrphan>, dependers: map<Hash, seq<nat>>,
                             queue: seq<TxPriority>) {
    && OrphansOk(w, seen, orphans) && DependersOk(w, orphans, dependers)
    && Waiting(w, orphans, {}, 0, {}) && QueueOk(w, seen, orphans, queue, {})
  }

  lemma CollectReady(w: World, seen: Pool, orphans: seq<COrphan>, dependers: map<Hash, seq<nat>>,
                     queue: seq<TxPriority>, e: TxPriority)
    requires Collecting(w, seen, orphans, dependers, queue) && e.tx.hash !in seen && Needs(w, e.tx) == {}
    requires e == Scored(w, e.tx)
    ensures Collecting(w, seen[e.tx.hash := e.tx], orphans, dependers, queue + [e])
  {
    assert Queued(queue + [e]) == Queued(queue) + {e.tx.hash};
    assert {} + Queued(queue + [e]) == {} + Queued(queue) + {e.tx.hash};
    assert e.tx.hash !in {} + Queued(queue);
    MoreFits(w, seen, queue, e.tx);
    hide Needs, Queued, Listed, Waiting, DependersOk, QueueFits;
    JoinFits(w, seen[e.tx.hash := e.tx], queue, {}, e);
  }

  lemma MoreFits(w: World, seen: Pool, queue: seq<TxPriority>, tx: Tx)
    requires QueueFits(w, seen, queue, {}) && tx.hash !in seen
    ensures QueueFits(w, seen[tx.hash := tx], queue, {})
  {
    hide Scored;
  }

  lemma CollectOrphan(w: World, seen: Pool, orphans: seq<COrphan>, dependers: map<Hash, seq<nat>>,
                      queue: seq<TxPriority>, o: COrphan, dependers': map<Hash, seq<nat>>)
    requires Collecting(w, seen, orphans, dependers, queue) && o.tx.hash !in seen
    requires EntryOf(o) == Scored(w, o.tx)
    requires Needs(w, o.tx) != {} && o.setDependsOn == Needs(w, o.tx)
    requires Extended(dependers, dependers', |orphans|, Needs(w, o.tx))
    ensures Collecting(w, seen[o.tx.hash := o.tx], orphans + [o], dependers', queue)
  {
    hide Needs, Collecting;
    OrphanDependers(w, seen, orphans, dependers, queue, o, dependers');
    OrphanQueue(w, seen, orphans, dependers, queue, o);
    assert Collecting(w, seen[o.tx.hash := o.tx], orphans + [o], dependers', queue) by {
      OrphanCollecting(w, seen, orphans, dependers, queue, o, dependers');
    }
  }

  lemma OrphanDependers(w: World, seen: Pool, orphans: seq<COrphan>, dependers: map<Hash, seq<nat>>,
                        queue: seq<TxPriority>, o: COrphan, dependers': map<Hash, seq<nat>>)
    requires Collecting(w, seen, orphans, dependers, queue)
    requires Extended(dependers, dependers', |orphans|, Needs(w, o.tx))
    ensures DependersOk(w, orphans + [o], dependers')
  {
    hide Needs, QueueOk, OrphansOk, Waiting;
    var orphans' := orphans + [o];
    forall h, k | h in dependers' && 0 <= k < |dependers'[h]| ensures dependers'[h][k] < |orphans'| {
      assert dependers'[h][k] in dependers'[h];
    }
  }

  lemma OrphanQueue(w: World, seen: Pool, orphans: seq<COrphan>, dependers: map<Hash, seq<nat>>, queue: seq<TxPriority>,
                    o: COrphan)
    requires Collecting(w, seen, orphans, dependers, queue) && o.tx.hash !in seen
    requires Needs(w, o.tx) != {} && o.setDependsOn == Needs(w, o.tx)
    ensures QueueOk(w, seen[o.tx.hash := o.tx], orphans + [o], queue, {})
  {
    assert o.tx.hash !in {} + Queued(queue);
    assert QueueFits(w, seen[o.tx.hash := o.tx], queue, {}) by {
      hide Needs, AllReached, OrphansOk, Waiting, DependersOk, Queued;
    }
    hide Needs, Queued, Waiting, DependersOk, QueueFits;
    OneMoreReached(w, seen, orphans, {} + Queued(queue), o);
  }

  lemma OneMoreReached(w: World, seen: Pool, orphans: seq<COrphan>, reached: set<Hash>, o: COrphan)
    requires AllReached(w, seen, orphans, reached) && o.tx.hash !in reached
    requires Needs(w, o.tx) != {} && o.setDependsOn != {}
    ensures AllReached(w, seen[o.tx.hash := o.tx], orphans + [o], reached)
  {
    var orphans' := orphans + [o];
    hide Needs;
    assert orphans'[|orphans|] == o;
    forall h | Listed(orphans, h) ensures Listed(orphans', h) {
      var n :| 0 <= n < |orphans| && orphans[n].tx.hash == h;
      assert orphans'[n].tx.hash == h;
    }
  }

  lemma OrphanCollecting(w: World, seen: Pool, orphans: seq<COrphan>, dependers: map<Hash, seq<nat>>,
                         queue: seq<TxPriority>, o: COrphan, dependers': map<Hash, seq<nat>>)
    requires Collecting(w, seen, orphans, dependers, queue) && o.tx.hash !in seen
    requires EntryOf(o) == Scored(w, o.tx)
    requires Needs(w, o.tx) != {} && o.setDependsOn == Needs(w, o.tx) && DependersOk(w, orphans + [o], dependers')
    requires QueueOk(w, seen[o.tx.hash := o.tx], orphans + [o], queue, {})
    ensures Collecting(w, seen[o.tx.hash := o.tx], orphans + [o], dependers', queue)
  {
    hide Needs, QueueOk, DependersOk;
  }

  /** Sorts the usable transactions into those that wait and those that do not. */
  method Collect(w: World, pool: Pool)
    returns (vOrphan: seq<COrphan>, mapDependers: map<Hash, seq<nat>>, vecPriority: seq<TxPriority>)
    requires PoolOk(pool) && Connected(w, pool)
    ensures Collecting(w, Usables(w, pool), vOrphan, mapDependers, vecPriority)
  {
    vOrphan, mapDependers, vecPriority := [], map[], [];
    var rest := pool.Keys;
    ghost var seen: Pool := map[];
    assert Collecting(w, seen, vOrphan, mapDependers, vecPriority);
    SeenStart(w, pool);
    hide Collecting, Needs, NeedsUpto, NoneMissing, Missing, PoolOk, Connected, Usables, Usable;
    while rest != {}
      invariant rest <= pool.Keys && seen == Usables(w, pool) - rest
      invariant Collecting(w, seen, vOrphan, mapDependers, vecPriority)
      decreases rest
    {
      var h :| h in rest;
      var tx := pool[h];
      SeenNext(w, pool, rest, h);
      vOrphan, mapDependers, vecPriority := CollectOne(w, pool, seen, tx, vOrphan, mapDependers, vecPriority);
      if Usable(w, pool, tx) { seen := seen[h := tx]; }
      rest := rest - {h};
    }
    assert Usables(w, pool) - rest == Usables(w, pool);
  }

  lemma SeenStart(w: World, pool: Pool)
    ensures Usables(w, pool) - pool.Keys == map[]
  {
  }

  lemma SeenNext(w: World, pool: Pool, rest: set<Hash>, h: Hash)
    requires PoolOk(pool) && Connected(w, pool) && h in rest && h in pool
    ensures var seen := Usables(w, pool) - rest;
            Usables(w, pool) - (rest - {h}) == (if Usable(w, pool, pool[h]) then seen[h := pool[h]] else seen)
            && h !in seen && pool[h].hash == h
    ensures pool[h].fEligible ==> forall n :: 0 <= n < |pool[h].vin| && Missing(w, pool, pool[h].vin[n]) ==>
              NeedsUpto(w, pool[h], n) == {} || !NoneMissing(w, pool, pool[h], n)
  {
    hide Usable, NeedsUpto, NoneMissing, Missing;
  }

  method CollectOne(w: World, pool: Pool, ghost seen: Pool, tx: Tx,
                    orphans0: seq<COrphan>, dependers0: map<Hash, seq<nat>>, queue0: seq<TxPriority>)
    returns (orphans: seq<COrphan>, dependers: map<Hash, seq<nat>>, queue: seq<TxPriority>)
    requires Collecting(w, seen, orphans0, dependers0, queue0) && tx.hash !in seen
    requires tx.fEligible ==> forall n :: 0 <= n < |tx.vin| && Missing(w, pool, tx.vin[n]) ==>
               NeedsUpto(w, tx, n) == {} || !NoneMissing(w, pool, tx, n)
    ensures Collecting(w, if Usable(w, pool, tx) then seen[tx.hash := tx] else seen, orphans, dependers, queue)
  {
    orphans, dependers, queue := orphans0, dependers0, queue0;
    hide Collecting, Needs, NeedsUpto, NoneMissing, Missing, Extended;
    if !tx.fEligible { return; }
    var fMissingInputs;
    fMissingInputs, orphans, dependers := ScanInputs(w, pool, tx, orphans, dependers);
    if fMissingInputs { return; }
    var dPriority, dFeePerKb := w.priority(tx), w.feePerKb(tx);
    if |orphans| > |orphans0| {
      var porphan := orphans[|orphans0|].(dPriority := dPriority, dFeePerKb := dFeePerKb);
      CollectOrphan(w, seen, orphans0, dependers0, queue0, porphan, dependers);
      orphans := orphans[|orphans0| := porphan];
      assert orphans == orphans0 + [porphan];
    } else {
      var e := TxPriority(dPriority, dFeePerKb, tx);
      CollectReady(w, seen, orphans, dependers, queue, e);
      queue := queue + [e];
    }
  }

  // ---------- filling the block ----------

  function TotalSize(placed: seq<Placed>): nat {
    if placed == [] then 0 else TotalSize(placed[..|placed| - 1]) + placed[|placed| - 1].tx.nSize
  }

  function TotalSigOps(placed: seq<Placed>): nat {
    if placed == [] then 0 else TotalSigOps(placed[..|placed| - 1]) + placed[|placed| - 1].nSigOps
  }

  function TotalFees(placed: seq<Placed>): int {
    if placed == [] then 0 else TotalFees(placed[..|placed| - 1]) + placed[|placed| - 1].nFees
  }

  lemma TotalsMore(placed: seq<Placed>, p: Placed)
    ensures TotalSize(placed + [p]) == TotalSize(placed) + p.tx.nSize
    ensures TotalSigOps(placed + [p]) == TotalSigOps(placed) + p.nSigOps
    ensures TotalFees(placed + [p]) == TotalFees(placed) + p.nFees
  {
    assert (placed + [p])[..|placed|] == placed;
  }

  ghost predicate Filling(w: World, pool: Pool, orphans: seq<COrphan>, dependers: map<Hash, seq<nat>>,
                          queue: seq<TxPriority>, taken: set<Hash>, placed: seq<Placed>)
  {
    && OrphansOk(w, pool, orphans) && DependersOk(w, orphans, dependers)
    && Waiting(w, orphans, Hashes(placed), 0, {}) && QueueOk(w, pool, orphans, queue, taken)
    && InOrder(w, placed) && Hashes(placed) <= taken
    && forall p :: p in placed ==> p.tx.hash in pool && pool[p.tx.hash] == p.tx && p.nSigOps >= p.tx.nSigOps
  }

  lemma FillingStart(w: World, pool: Pool, orphans: seq<COrphan>, dependers: map<Hash, seq<nat>>,
                     queue: seq<TxPriority>)
    requires Collecting(w, pool, orphans, dependers, queue)
    ensures Filling(w, pool, orphans, dependers, queue, {}, [])
  {
    assert Hashes([]) == {};
    hide OrphansOk, DependersOk, Waiting, QueueOk, Hashes;
  }

  lemma QueuedIs(w: World, pool: Pool, orphans: seq<COrphan>, queue: seq<TxPriority>, taken: set<Hash>, i: nat)
    requires QueueOk(w, pool, orphans, queue, taken) && i < |queue|
    ensures var tx := queue[i].tx;
            && tx.hash in Queued(queue) && tx.hash in pool && pool[tx.hash] == tx && queue[i] == Scored(w, tx)
  {
    hide AllReached, Scored;
    assert queue[i] in queue;
  }

  lemma FillingTake(w: World, pool: Pool, orphans: seq<COrphan>, dependers: map<Hash, seq<nat>>, queue: seq<TxPriority>,
                    taken: set<Hash>, placed: seq<Placed>, i: nat)
    requires Filling(w, pool, orphans, dependers, queue, taken, placed) && i < |queue|
    ensures var tx := queue[i].tx;
            && Filling(w, pool, orphans, dependers, Without(queue, i), taken + {tx.hash}, placed)
            && tx.hash in pool && pool[tx.hash] == tx && tx.hash !in taken
            && Needs(w, tx) <= Hashes(placed) && tx.hash !in Hashes(placed) && queue[i] == Scored(w, tx)
  {
    var tx := queue[i].tx;
    hide OrphansOk, DependersOk, Waiting, QueueOk, InOrder, Hashes, Needs, Queued, Without;
    QueuedIs(w, pool, orphans, queue, taken, i);
    TakenIsReady(w, pool, orphans, queue, taken, Hashes(placed), tx.hash);
    TakeKeeps(w, pool, orphans, queue, taken, i);
  }

  /** Every usable transaction was considered exactly if all it needs is in the block. */
  lemma FillingEnd(w: World, pool: Pool, orphans: seq<COrphan>, dependers: map<Hash, seq<nat>>, taken: set<Hash>,
                   placed: seq<Placed>)
    requires Filling(w, pool, orphans, dependers, [], taken, placed)
    ensures forall h :: h in pool ==> (h in taken <==> Needs(w, pool[h]) <= Hashes(placed))
  {
    assert Queued([]) == {};
    hide OrphansOk, DependersOk, Waiting, QueueOk, InOrder, Hashes, Needs, Queued;
    forall h | h in pool ensures h in taken <==> Needs(w, pool[h]) <= Hashes(placed) {
      TakenIsReady(w, pool, orphans, [], taken, Hashes(placed), h);
    }
  }

  /** The transaction joins the block, and those that wait for it hear of it. */
  method Place(ghost w: World, ghost pool: Pool, orphans0: seq<COrphan>, dependers: map<Hash, seq<nat>>,
               queue0: seq<TxPriority>, ghost taken: set<Hash>, placed0: seq<Placed>, p: Placed)
    returns (orphans: seq<COrphan>, queue: seq<TxPriority>, placed: seq<Placed>)
    requires Filling(w, pool, orphans0, dependers, queue0, taken, placed0)
    requires p.tx.hash in taken && p.tx.hash in pool && pool[p.tx.hash] == p.tx && p.nSigOps >= p.tx.nSigOps
    requires Needs(w, p.tx) <= Hashes(placed0) && p.tx.hash !in Hashes(placed0)
    ensures Filling(w, pool, orphans, dependers, queue, taken, placed) && placed == placed0 + [p]
  {
    hide OrphansOk, DependersOk, Waiting, QueueOk, InOrder, Hashes, Needs;
    PlaceKeeps(w, placed0, p);
    placed := placed0 + [p];
    orphans, queue := Release(w, pool, orphans0, dependers, queue0, taken, Hashes(placed0), p.tx.hash);
  }

  datatype Limits = Limits(nBlockMaxSize: nat, nBlockPrioritySize: nat, nBlockMinSize: nat, nMinTxFee: int)

  // ---------- which transactions are placed, and in which order ----------

  /** The block so far, and whether the queue is ordered by fee. */
  datatype Progress = Progress(placed: seq<Placed>, byFee: bool)

  function BlockSize(placed: seq<Placed>): nat { 1000 + TotalSize(placed) }

  function BlockSigOps(placed: seq<Placed>): nat { 100 + TotalSigOps(placed) }

  /** A transaction as it is counted, after those placed before. */
  function Counted(w: World, placed: seq<Placed>, tx: Tx): Placed {
    Placed(tx, tx.nSigOps + w.p2shSigOps(tx, placed), w.fees(tx, placed))
  }

  /** The timestamp limit, when the n-th transaction is considered. */
  predicate Late(w: World, n: nat, tx: Tx) { tx.nTime > w.clock(n) || (w.fProofOfStake && tx.nTime > w.nCoinbaseTime) }

  predicate WithinLimits(l: Limits, placed: seq<Placed>, tx: Tx) {
    BlockSize(placed) + tx.nSize < l.nBlockMaxSize && BlockSigOps(placed) + tx.nSigOps < MAX_BLOCK_SIGOPS
  }

  predicate TooCheap(w: World, l: Limits, b: Progress, tx: Tx) {
    b.byFee && w.feePerKb(tx) < l.nMinTxFee as real && BlockSize(b.placed) + tx.nSize >= l.nBlockMinSize
  }

  /** A transaction belongs into the block as it is, as the n-th considered: no check and no
      limit speaks against it. */
  predicate Fits(w: World, l: Limits, b: Progress, n: nat, tx: Tx) {
    && BlockSize(b.placed) + tx.nSize < l.nBlockMaxSize
    && BlockSigOps(b.placed) + Counted(w, b.placed, tx).nSigOps < MAX_BLOCK_SIGOPS
    && !Late(w, n, tx) && !TooCheap(w, l, b, tx)
    && w.fetches(tx, b.placed) && w.connects(tx, b.placed)
  }

  /** From here on the queue is ordered by fee. */
  predicate PastPriority(l: Limits, e: TxPriority, nBlockSize: nat) {
    nBlockSize + e.tx.nSize >= l.nBlockPrioritySize || e.dPriority < (COIN * 144 / 250) as real
  }

  function After(w: World, l: Limits, b: Progress, n: nat, tx: Tx): Progress {
    Progress(
      if Fits(w, l, b, n, tx) then b.placed + [Counted(w, b.placed, tx)] else b.placed,
      || b.byFee
      || (WithinLimits(l, b.placed, tx) && !Late(w, n, tx) && PastPriority(l, Scored(w, tx), BlockSize(b.placed))))
  }

  /** The block when the transactions are considered in the given order. */
  function Filled(w: World, l: Limits, order: seq<Tx>): Progress {
    if order == [] then Progress([], l.nBlockPrioritySize <= 0)
    else After(w, l, Filled(w, l, order[..|order| - 1]), |order| - 1, order[|order| - 1])
  }

  lemma FilledMore(w: World, l: Limits, order: seq<Tx>, tx: Tx)
    ensures Filled(w, l, order + [tx]) == After(w, l, Filled(w, l, order), |order|, tx)
  {
    assert (order + [tx])[..|order|] == order;
  }

  function TxHashes(order: seq<Tx>): set<Hash> { set tx | tx in order :: tx.hash }

  /** All a transaction needs is in the block, and it has not been considered. */
  ghost predicate Ready(w: World, pool: Pool, l: Limits, order: seq<Tx>, h: Hash) {
    h in pool && h !in TxHashes(order) && Needs(w, pool[h]) <= Hashes(Filled(w, l, order).placed)
  }

  /** The next one considered is ready, and no other that is ready comes before it. */
  ghost predicate NextOk(w: World, pool: Pool, l: Limits, order: seq<Tx>, tx: Tx) {
    && Ready(w, pool, l, order, tx.hash) && pool[tx.hash] == tx
    && forall h :: Ready(w, pool, l, order, h) ==> !Below(Filled(w, l, order).byFee, Scored(w, tx), Scored(w, pool[h]))
  }

  /** Best first among those whose needs are met. */
  ghost predicate Greedy(w: World, pool: Pool, l: Limits, order: seq<Tx>) {
    forall n :: 0 <= n < |order| ==> NextOk(w, pool, l, order[..n], order[n])
  }

  /** Nothing that is ready is left. */
  ghost predicate Exhausted(w: World, pool: Pool, l: Limits, order: seq<Tx>) {
    forall h :: h in pool ==> !Ready(w, pool, l, order, h)
  }

  lemma GreedyMore(w: World, pool: Pool, l: Limits, order: seq<Tx>, tx: Tx)
    requires Greedy(w, pool, l, order) && NextOk(w, pool, l, order, tx)
    ensures Greedy(w, pool, l, order + [tx])
  {
    var order' := order + [tx];
    hide NextOk;
    forall n | 0 <= n < |order'| ensures NextOk(w, pool, l, order'[..n], order'[n]) {
      assert order'[..n] == order[..n];
    }
  }

  lemma {:induction false} PlacedGrows(w: World, l: Limits, order: seq<Tx>, n: nat)
    requires n <= |order|
    ensures Filled(w, l, order[..n]).placed <= Filled(w, l, order).placed
    decreases |order|
  {
    if n == |order| {
      assert order[..n] == order;
    } else {
      var before, tx := order[..|order| - 1], order[|order| - 1];
      assert before[..n] == order[..n] && before + [tx] == order;
      PlacedGrows(w, l, before, n);
      FilledMore(w, l, before, tx);
      hide Fits, Filled;
    }
  }

  lemma FitsPlaced(w: World, l: Limits, order: seq<Tx>, n: nat)
    requires n < |order| && Fits(w, l, Filled(w, l, order[..n]), n, order[n])
    ensures order[n].hash in Hashes(Filled(w, l, order).placed)
  {
    var b := Filled(w, l, order[..n]);
    assert order[..n + 1] == order[..n] + [order[n]];
    hide Fits, Filled, Hashes;
    FilledMore(w, l, order[..n], order[n]);
    PlacedGrows(w, l, order, n + 1);
    assert Filled(w, l, order[..n + 1]).placed == b.placed + [Counted(w, b.placed, order[n])];
    LastStays(b.placed, Counted(w, b.placed, order[n]), Filled(w, l, order).placed);
  }

  lemma LastStays(placed: seq<Placed>, p: Placed, placed': seq<Placed>)
    requires placed + [p] <= placed'
    ensures p.tx.hash in Hashes(placed')
  {
    assert placed'[|placed|] == p;
    assert p in placed';
  }

  /** No transaction is passed over in silence: one whose needs are all in the block is in it
      too, or a check or a limit spoke against it when its turn came. */
  lemma PassedOver(w: World, pool: Pool, l: Limits, order: seq<Tx>, h: Hash)
    returns (n: nat)
    requires Greedy(w, pool, l, order) && Exhausted(w, pool, l, order)
    requires h in pool && Needs(w, pool[h]) <= Hashes(Filled(w, l, order).placed)
    ensures n < |order| && order[n] == pool[h]
    ensures h in Hashes(Filled(w, l, order).placed) || !Fits(w, l, Filled(w, l, order[..n]), n, pool[h])
  {
    hide Needs, Fits, Filled, Hashes;
    assert h in TxHashes(order) by { assert !Ready(w, pool, l, order, h); }
    var tx :| tx in order && tx.hash == h;
    n :| n < |order| && order[n] == tx;
    assert NextOk(w, pool, l, order[..n], order[n]);
    assert tx == pool[h];
    if Fits(w, l, Filled(w, l, order[..n]), n, tx) { FitsPlaced(w, l, order, n); }
  }

  /** No two transactions score alike. */
  ghost predicate NoTies(w: World, pool: Pool) {
    forall g, h :: g in pool && h in pool && g != h ==>
      w.priority(pool[g]) != w.priority(pool[h]) || w.feePerKb(pool[g]) != w.feePerKb(pool[h])
  }

  lemma SameNext(w: World, pool: Pool, l: Limits, order: seq<Tx>, tx1: Tx, tx2: Tx)
    requires NextOk(w, pool, l, order, tx1) && NextOk(w, pool, l, order, tx2) && NoTies(w, pool)
    ensures tx1 == tx2
  {
    hide Needs, Hashes, Filled, TxHashes;
  }

  lemma {:induction false} SamePrefix(w: World, pool: Pool, l: Limits, order1: seq<Tx>, order2: seq<Tx>, n: nat)
    requires Greedy(w, pool, l, order1) && Greedy(w, pool, l, order2) && NoTies(w, pool)
    requires n <= |order1| && n <= |order2|
    ensures order1[..n] == order2[..n]
    decreases n
  {
    hide NextOk, NoTies, Greedy;
    if n > 0 {
      SamePrefix(w, pool, l, order1, order2, n - 1);
      GreedyAt(w, pool, l, order1, n - 1);
      GreedyAt(w, pool, l, order2, n - 1);
      SameNext(w, pool, l, order1[..n - 1], order1[n - 1], order2[n - 1]);
      assert order1[..n] == order1[..n - 1] + [order1[n - 1]];
      assert order2[..n] == order2[..n - 1] + [order2[n - 1]];
    }
  }

  lemma GreedyAt(w: World, pool: Pool, l: Limits, order: seq<Tx>, n: nat)
    requires Greedy(w, pool, l, order) && n < |order|
    ensures NextOk(w, pool, l, order[..n], order[n])
  {
    hide NextOk;
  }

  /** Apart from ties there is one order only, and so one block. */
  lemma OneOrder(w: World, pool: Pool, l: Limits, order1: seq<Tx>, order2: seq<Tx>)
    requires Greedy(w, pool, l, order1) && Greedy(w, pool, l, order2) && NoTies(w, pool)
    requires Exhausted(w, pool, l, order1) && Exhausted(w, pool, l, order2)
    ensures order1 == order2
  {
    hide *;
    NotLonger(w, pool, l, order1, order2);
    NotLonger(w, pool, l, order2, order1);
    SamePrefix(w, pool, l, order1, order2, |order1|);
    assert order1[..|order1|] == order1 && order2[..|order1|] == order2;
  }

  lemma NotLonger(w: World, pool: Pool, l: Limits, order1: seq<Tx>, order2: seq<Tx>)
    requires Greedy(w, pool, l, order1) && Greedy(w, pool, l, order2) && NoTies(w, pool)
    requires Exhausted(w, pool, l, order1)
    ensures |order2| <= |order1|
  {
    hide NoTies, NextOk, Exhausted, Greedy;
    var n := |order1|;
    if n < |order2| {
      SamePrefix(w, pool, l, order1, order2, n);
      assert order1[..n] == order1;
      GreedyAt(w, pool, l, order2, n);
      NextNotExhausted(w, pool, l, order2[..n], order2[n]);
    }
  }

  lemma NextNotExhausted(w: World, pool: Pool, l: Limits, order: seq<Tx>, tx: Tx)
    requires NextOk(w, pool, l, order, tx)
    ensures !Exhausted(w, pool, l, order)
  {
    hide Needs, Filled, TxHashes, Hashes;
  }

  // ---------- the loop ----------

  /** What becomes of a transaction off the queue. */
  method Judge(w: World, l: Limits, e: TxPriority, placed: seq<Placed>, nBlockSize: nat, nBlockSigOps: nat,
               fSortedByFee0: bool, n: nat)
    returns (fPlace: bool, nTxSigOps: nat, nTxFees: int, fSortedByFee: bool)
    requires e == Scored(w, e.tx) && nBlockSize == BlockSize(placed) && nBlockSigOps == BlockSigOps(placed)
    ensures fPlace <==> Fits(w, l, Progress(placed, fSortedByFee0), n, e.tx)
    ensures fPlace ==> Placed(e.tx, nTxSigOps, nTxFees) == Counted(w, placed, e.tx)
    ensures fSortedByFee == After(w, l, Progress(placed, fSortedByFee0), n, e.tx).byFee
  {
    fPlace, fSortedByFee, nTxFees := false, fSortedByFee0, 0;
    var nTxSize := e.tx.nSize;
    nTxSigOps := e.tx.nSigOps;
    if nBlockSize + nTxSize >= l.nBlockMaxSize { return; }
    if nBlockSigOps + nTxSigOps >= MAX_BLOCK_SIGOPS { return; }
    if e.tx.nTime > w.clock(n) || (w.fProofOfStake && e.tx.nTime > w.nCoinbaseTime) { return; }
    if fSortedByFee && e.dFeePerKb < l.nMinTxFee as real && nBlockSize + nTxSize >= l.nBlockMinSize { return; }
    if !fSortedByFee && PastPriority(l, e, nBlockSize) {
      fSortedByFee := true;
    }
    if !w.fetches(e.tx, placed) { return; }
    nTxFees := w.fees(e.tx, placed);
    nTxSigOps := nTxSigOps + w.p2shSigOps(e.tx, placed);
    if nBlockSigOps + nTxSigOps >= MAX_BLOCK_SIGOPS { return; }
    if !w.connects(e.tx, placed) { return; }
    fPlace := true;
  }

  ghost predicate PlacedOk(pool: Pool, placed: seq<Placed>) {
    forall p :: p in placed ==> p.tx.hash in pool && pool[p.tx.hash] == p.tx && p.nSigOps >= p.tx.nSigOps
  }

  /** The block being filled, and the transactions considered so far. */
  datatype Draft = Draft(orphans: seq<COrphan>, queue: seq<TxPriority>, fSortedByFee: bool, placed: seq<Placed>,
                         nBlockSize: nat, nBlockSigOps: nat, nFees: int, order: seq<Tx>)

  ghost predicate Totals(l: Limits, d: Draft) {
    && d.nBlockSize == BlockSize(d.placed) && d.nBlockSigOps == BlockSigOps(d.placed) && d.nFees == TotalFees(d.placed)
    && (d.placed != [] ==> d.nBlockSize < l.nBlockMaxSize && d.nBlockSigOps < MAX_BLOCK_SIGOPS)
  }

  ghost predicate Going(w: World, pool: Pool, l: Limits, dependers: map<Hash, seq<nat>>, d: Draft) {
    && Filling(w, pool, d.orphans, dependers, d.queue, TxHashes(d.order), d.placed)
    && Filled(w, l, d.order) == Progress(d.placed, d.fSortedByFee) && Greedy(w, pool, l, d.order) && Totals(l, d)
  }

  /** What is ready is in the queue, and so a best entry of the queue may come next. */
  lemma BestIsNext(w: World, pool: Pool, l: Limits, dependers: map<Hash, seq<nat>>, d: Draft, best: nat)
    requires Going(w, pool, l, dependers, d) && best < |d.queue| && IsBest(d.queue, d.fSortedByFee, best)
    ensures NextOk(w, pool, l, d.order, d.queue[best].tx)
  {
    FillingTake(w, pool, d.orphans, dependers, d.queue, TxHashes(d.order), d.placed, best);
    hide Filled, TxHashes, Hashes, Needs, Greedy, Totals, Scored, Without;
    forall h | Ready(w, pool, l, d.order, h) ensures !Below(d.fSortedByFee, d.queue[best], Scored(w, pool[h])) {
      ReadyQueued(w, pool, d.orphans, dependers, d.queue, TxHashes(d.order), d.placed, h);
    }
  }

  lemma ReadyQueued(w: World, pool: Pool, orphans: seq<COrphan>, dependers: map<Hash, seq<nat>>, queue: seq<TxPriority>,
                    taken: set<Hash>, placed: seq<Placed>, h: Hash)
    requires Filling(w, pool, orphans, dependers, queue, taken, placed)
    requires h in pool && h !in taken && Needs(w, pool[h]) <= Hashes(placed)
    ensures exists j :: 0 <= j < |queue| && queue[j] == Scored(w, pool[h])
  {
    TakenIsReady(w, pool, orphans, queue, taken, Hashes(placed), h);
    var e :| e in queue && e.tx.hash == h;
    var j :| 0 <= j < |queue| && queue[j] == e;
    hide OrphansOk, DependersOk, Waiting, InOrder, Hashes, Needs, Queued, Listed;
  }

  /** Takes the best transaction off the queue and places it or turns it away. */
  method Round(w: World, ghost pool: Pool, l: Limits, dependers: map<Hash, seq<nat>>, d: Draft) returns (d': Draft)
    requires Going(w, pool, l, dependers, d) && d.queue != []
    ensures Going(w, pool, l, dependers, d') && pool.Keys - TxHashes(d'.order) < pool.Keys - TxHashes(d.order)
    ensures exists best: nat ::
              best < |d.queue| && IsBest(d.queue, d.fSortedByFee, best) && d'.order == d.order + [d.queue[best].tx]
  {
    hide Filling, Filled, Fits, TotalSize, TotalSigOps, TotalFees, Needs, Hashes, Without, Scored, Greedy, NextOk;
    hide Ready, TxHashes;
    var best := Best(d.queue, d.fSortedByFee);
    var e := d.queue[best];
    ghost var taken := TxHashes(d.order);
    FillingTake(w, pool, d.orphans, dependers, d.queue, taken, d.placed, best);
    BestIsNext(w, pool, l, dependers, d, best);
    GreedyMore(w, pool, l, d.order, e.tx);
    FilledMore(w, l, d.order, e.tx);
    TxHashesMore(d.order, e.tx);
    assert e.tx.hash in pool.Keys - taken;
    var queue, order := Without(d.queue, best), d.order + [e.tx];
    var fPlace, nTxSigOps, nTxFees, fSortedByFee :=
      Judge(w, l, e, d.placed, d.nBlockSize, d.nBlockSigOps, d.fSortedByFee, |d.order|);
    if !fPlace {
      d' := d.(queue := queue, fSortedByFee := fSortedByFee, order := order);
    } else {
      var p := Placed(e.tx, nTxSigOps, nTxFees);
      TotalsMore(d.placed, p);
      FitsLimits(w, l, Progress(d.placed, d.fSortedByFee), |d.order|, e.tx);
      var orphans, queue', placed := Place(w, pool, d.orphans, dependers, queue, taken + {e.tx.hash}, d.placed, p);
      d' := Draft(orphans, queue', fSortedByFee, placed,
                  d.nBlockSize + e.tx.nSize, d.nBlockSigOps + nTxSigOps, d.nFees + nTxFees, order);
    }
  }

  lemma TxHashesMore(order: seq<Tx>, tx: Tx)
    ensures TxHashes(order + [tx]) == TxHashes(order) + {tx.hash}
  {
  }

  lemma FitsLimits(w: World, l: Limits, b: Progress, n: nat, tx: Tx)
    requires Fits(w, l, b, n, tx)
    ensures BlockSize(b.placed) + tx.nSize < l.nBlockMaxSize
    ensures BlockSigOps(b.placed) + Counted(w, b.placed, tx).nSigOps < MAX_BLOCK_SIGOPS
  {
  }

  method Fill(w: World, pool: Pool, l: Limits) returns (d: Draft)
    requires PoolOk(pool) && Connected(w, pool)
    ensures Filled(w, l, d.order) == Progress(d.placed, d.fSortedByFee)
    ensures Greedy(w, Usables(w, pool), l, d.order) && Exhausted(w, Usables(w, pool), l, d.order)
    ensures InOrder(w, d.placed) && PlacedOk(Usables(w, pool), d.placed) && Totals(l, d)
  {
    var orphans, dependers, queue := Collect(w, pool);
    d := Draft(orphans, queue, l.nBlockPrioritySize <= 0, [], 1000, 100, 0, []);
    ghost var usables := Usables(w, pool);
    GoingStart(w, usables, l, dependers, d);
    hide *;
    while d.queue != []
      invariant Going(w, usables, l, dependers, d)
      decreases usables.Keys - TxHashes(d.order)
    {
      d := Round(w, usables, l, dependers, d);
    }
    GoingEnd(w, usables, l, dependers, d);
  }

  lemma GoingStart(w: World, pool: Pool, l: Limits, dependers: map<Hash, seq<nat>>, d: Draft)
    requires Collecting(w, pool, d.orphans, dependers, d.queue)
    requires d == Draft(d.orphans, d.queue, l.nBlockPrioritySize <= 0, [], 1000, 100, 0, [])
    ensures Going(w, pool, l, dependers, d)
  {
    FillingStart(w, pool, d.orphans, dependers, d.queue);
    assert TxHashes([]) == {};
    hide Filling;
  }

  lemma GoingEnd(w: World, pool: Pool, l: Limits, dependers: map<Hash, seq<nat>>, d: Draft)
    requires Going(w, pool, l, dependers, d) && d.queue == []
    ensures Filled(w, l, d.order) == Progress(d.placed, d.fSortedByFee)
    ensures Greedy(w, pool, l, d.order) && Exhausted(w, pool, l, d.order)
    ensures InOrder(w, d.placed) && PlacedOk(pool, d.placed) && Totals(l, d)
  {
    hide Filling, Totals, InOrder, PlacedOk, Filled, Greedy, TxHashes, Needs, Hashes;
    FillingEnd(w, pool, d.orphans, dependers, TxHashes(d.order), d.placed);
    FillingIs(w, pool, d.orphans, dependers, d.queue, TxHashes(d.order), d.placed);
  }

  lemma FillingIs(w: World, pool: Pool, orphans: seq<COrphan>, dependers: map<Hash, seq<nat>>, queue: seq<TxPriority>,
                  taken: set<Hash>, placed: seq<Placed>)
    requires Filling(w, pool, orphans, dependers, queue, taken, placed)
    ensures InOrder(w, placed) && PlacedOk(pool, placed)
  {
    hide OrphansOk, DependersOk, Waiting, QueueOk, InOrder, Hashes, Needs;
  }

  /** The limits as the options give them. */
  function LimitsOf(optMaxSize: nat, optPrioritySize: nat, optMinSize: nat, nMinTxFee: int): Limits {
    var nBlockMaxSize := Max(1000, Min(MAX_BLOCK_SIZE - 1000, optMaxSize));
    Limits(nBlockMaxSize, Min(nBlockMaxSize, optPrioritySize), Min(nBlockMaxSize, optMinSize), nMinTxFee)
  }

  /** The transactions of a new block after its coinbase.  Whatever the options, the block
      stays below the protocol's limits. */
  method CreateNewBlock(w: World, pool: Pool, optMaxSize: nat, optPrioritySize: nat, optMinSize: nat, nMinTxFee: int)
    returns (vtx: seq<Placed>, nFees: int, order: seq<Tx>)
    requires PoolOk(pool) && Connected(w, pool)
    ensures var l := LimitsOf(optMaxSize, optPrioritySize, optMinSize, nMinTxFee);
            && vtx == Filled(w, l, order).placed
            && Greedy(w, Usables(w, pool), l, order) && Exhausted(w, Usables(w, pool), l, order)
    ensures InOrder(w, vtx) && PlacedOk(Usables(w, pool), vtx) && nFees == TotalFees(vtx)
    ensures vtx != [] ==> BlockSize(vtx) < LimitsOf(optMaxSize, optPrioritySize, optMinSize, nMinTxFee).nBlockMaxSize
    ensures vtx != [] ==> BlockSize(vtx) < MAX_BLOCK_SIZE - 1000 && BlockSigOps(vtx) < MAX_BLOCK_SIGOPS
  {
    var nBlockMaxSize := Max(1000, Min(MAX_BLOCK_SIZE - 1000, optMaxSize));
    var nBlockPrioritySize := Min(nBlockMaxSize, optPrioritySize);
    var nBlockMinSize := Min(nBlockMaxSize, optMinSize);
    var l := Limits(nBlockMaxSize, nBlockPrioritySize, nBlockMinSize, nMinTxFee);
    assert l == LimitsOf(optMaxSize, optPrioritySize, optMinSize, nMinTxFee) && nBlockMaxSize <= MAX_BLOCK_SIZE - 1000;
    hide Min, Max, LimitsOf, Usables, Filled, Greedy, Exhausted, InOrder, PlacedOk, Connected, PoolOk, TotalFees;
    hide BlockSize, BlockSigOps;
    var d := Fill(w, pool, l);
    vtx, nFees, order := d.placed, d.nFees, d.order;
  }
}
