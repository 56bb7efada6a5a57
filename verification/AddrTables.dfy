/** The address manager's tables as a value: its five indexes, the invariant that ties them
    together, and the effect of each change an operation makes. */
module AddrTables {
  import opened Basics

  const TRIED_BUCKET_COUNT := 256
  const TRIED_BUCKET_SIZE := 64
  const NEW_BUCKET_COUNT := 256
  const NEW_BUCKET_SIZE := 64
  const NEW_BUCKETS_PER_ADDRESS := 8

  datatype Service = Service(ip: nat, port: nat)

  datatype Info = Info(addr: Service, nServices: bv64, nTime: int, nLastTry: int, source: nat,
                       nLastSuccess: int, nAttempts: int, nRefCount: int, fInTried: bool, nRandomPos: int)

  /** The two bucket hashes, of the secret key with an address and, for new entries, its
      source. */
  datatype Hashes = Hashes(tried: (nat, Service) -> nat, news: (nat, nat, nat) -> nat) {
    function TriedBucket(key: nat, addr: Service): nat { tried(key, addr) % TRIED_BUCKET_COUNT }

    function NewBucket(key: nat, ip: nat, source: nat): nat { news(key, ip, source) % NEW_BUCKET_COUNT }
  }

  datatype Tables = Tables(nKey: nat, nIdCount: nat, info: map<nat, Info>, addr: map<nat, nat>, random: seq<nat>,
                           nTried: int, tried: seq<seq<nat>>, nNew: int, news: seq<set<nat>>)

  // ---------- the invariant ----------

  /** `random` is a permutation of the ids, and every entry knows its place in it. */
  ghost predicate RandomOk(info: map<nat, Info>, random: seq<nat>) {
    && (forall id :: id in info ==> 0 <= info[id].nRandomPos < |random| && random[info[id].nRandomPos] == id)
    && (forall i :: 0 <= i < |random| ==> random[i] in info && info[random[i]].nRandomPos == i)
  }

  /** The index by network address and the table of entries are inverse. */
  ghost predicate AddrOk(info: map<nat, Info>, addr: map<nat, nat>) {
    && (forall id :: id in info ==> info[id].addr.ip in addr && addr[info[id].addr.ip] == id)
    && (forall ip :: ip in addr ==> addr[ip] in info && info[addr[ip]].addr.ip == ip)
  }

  ghost predicate Distinct(s: seq<nat>) {
    forall i, j :: 0 <= i < j < |s| ==> s[i] != s[j]
  }

  /** Every tried entry is in the one bucket its hash gives, once, and nowhere else. */
  ghost predicate TriedOk(h: Hashes, key: nat, info: map<nat, Info>, tried: seq<seq<nat>>) {
    && |tried| == TRIED_BUCKET_COUNT
    && (forall b :: 0 <= b < |tried| ==> |tried[b]| <= TRIED_BUCKET_SIZE && Distinct(tried[b]))
    && (forall b, id :: 0 <= b < |tried| && id in tried[b] ==>
          id in info && info[id].fInTried && h.TriedBucket(key, info[id].addr) == b)
    && (forall id :: id in info && info[id].fInTried ==> id in tried[h.TriedBucket(key, info[id].addr)])
  }

  ghost function Holders(news: seq<set<nat>>, id: nat): set<int> {
    set b | 0 <= b < |news| && id in news[b]
  }

  /** An entry's reference count is the number of new buckets that hold it: none for a tried
      entry, one to eight for any other. */
  ghost predicate RefsOk(news: seq<set<nat>>, id: nat, e: Info) {
    if e.fInTried then e.nRefCount == 0
    else e.nRefCount == |Holders(news, id)| && 1 <= e.nRefCount <= NEW_BUCKETS_PER_ADDRESS
  }

  /** The new buckets, where the counts of the ids in x are not spoken for. */
  ghost predicate NewOk(info: map<nat, Info>, news: seq<set<nat>>, x: set<nat>) {
    && |news| == NEW_BUCKET_COUNT
    && (forall b :: 0 <= b < |news| ==> |news[b]| <= NEW_BUCKET_SIZE)
    && (forall b, id :: 0 <= b < |news| && id in news[b] ==> id in info && !info[id].fInTried)
    && (forall id :: id in info && id !in x ==> RefsOk(news, id, info[id]))
  }

  ghost function Ids(info: map<nat, Info>, inTried: bool): set<nat> {
    set id | id in info && info[id].fInTried == inTried
  }

  ghost predicate CountsOk(t: Tables) {
    t.nTried == |Ids(t.info, true)| && t.nNew == |Ids(t.info, false)|
  }

  ghost predicate IdsOk(t: Tables) { forall id :: id in t.info ==> id < t.nIdCount }

  ghost predicate InvBut(h: Hashes, t: Tables, x: set<nat>) {
    && RandomOk(t.info, t.random)
    && AddrOk(t.info, t.addr)
    && TriedOk(h, t.nKey, t.info, t.tried)
    && NewOk(t.info, t.news, x)
    && CountsOk(t)
    && IdsOk(t)
  }

  ghost predicate Inv(h: Hashes, t: Tables) { InvBut(h, t, {}) }

  /** What the consistency check asks of the recorded times. */
  ghost predicate TimesOk(t: Tables) {
    forall id :: id in t.info ==>
      t.info[id].nLastTry >= 0 && t.info[id].nLastSuccess >= 0 && (t.info[id].fInTried ==> t.info[id].nLastSuccess != 0)
  }

  function Empty(key: nat): Tables {
    Tables(key, 0, map[], map[], [], 0, seq(TRIED_BUCKET_COUNT, _ => []), 0, seq(NEW_BUCKET_COUNT, _ => {}))
  }

  lemma EmptyInv(h: Hashes, key: nat)
    ensures Inv(h, Empty(key)) && TimesOk(Empty(key))
  {
  }

  // ---------- the shuffled list ----------

  /** Exchanging two places of the shuffled list. */
  function Swapped(t: Tables, i: nat, j: nat): Tables
    requires i < |t.random| && j < |t.random| && t.random[i] in t.info && t.random[j] in t.info
  {
    if i == j then t else
      var id1, id2 := t.random[i], t.random[j];
      var info1 := t.info[id1 := t.info[id1].(nRandomPos := j)];
      t.(info := info1[id2 := info1[id2].(nRandomPos := i)], random := t.random[i := id2][j := id1])
  }

  /** Two tables of entries that differ in places in the shuffled list only. */
  ghost predicate SameButPlaces(info: map<nat, Info>, info': map<nat, Info>) {
    info.Keys == info'.Keys && forall id :: id in info ==> info'[id] == info[id].(nRandomPos := info'[id].nRandomPos)
  }

  lemma SwappedPlaces(t: Tables, i: nat, j: nat)
    requires i < |t.random| && j < |t.random| && t.random[i] in t.info && t.random[j] in t.info
    requires t.random[i] != t.random[j]
    ensures var t' := Swapped(t, i, j);
            && SameButPlaces(t.info, t'.info) && t' == t.(info := t'.info, random := t'.random)
            && t'.random == t.random[i := t.random[j]][j := t.random[i]]
            && t'.info[t.random[i]].nRandomPos == j && t'.info[t.random[j]].nRandomPos == i
            && forall id :: id in t.info && id != t.random[i] && id != t.random[j] ==> t'.info[id] == t.info[id]
  {
  }

  lemma SwappedRandomOk(t: Tables, i: nat, j: nat)
    requires RandomOk(t.info, t.random) && i < |t.random| && j < |t.random|
    ensures var t' := Swapped(t, i, j);
            && t' == t.(info := t'.info, random := t'.random)
            && RandomOk(t'.info, t'.random) && SameButPlaces(t.info, t'.info)
            && t'.random == t.random[i := t.random[j]][j := t.random[i]]
  {
    if i != j {
      assert t.random[i] != t.random[j];
      SwappedPlaces(t, i, j);
      hide Swapped;
      SwappedPlacesOk(t.info, t.random, Swapped(t, i, j).info, i, j);
    } else {
      assert t.random[i := t.random[j]][j := t.random[i]] == t.random;
    }
  }

  lemma SwappedPlacesOk(info: map<nat, Info>, random: seq<nat>, info': map<nat, Info>, i: nat, j: nat)
    requires RandomOk(info, random) && i < |random| && j < |random| && info'.Keys == info.Keys
    requires info'[random[i]].nRandomPos == j && info'[random[j]].nRandomPos == i
    requires forall id :: id in info && id != random[i] && id != random[j] ==> info'[id] == info[id]
    ensures RandomOk(info', random[i := random[j]][j := random[i]])
  {
  }

  // ---------- changes that leave the tables in shape ----------

  /** The same entries, with the same address, the same count and in the same table. */
  ghost predicate SameShape(info: map<nat, Info>, info': map<nat, Info>) {
    && info.Keys == info'.Keys
    && forall id :: id in info ==>
         && info'[id].addr == info[id].addr
         && info'[id].fInTried == info[id].fInTried
         && info'[id].nRefCount == info[id].nRefCount
  }

  /** The same entries, with the same address and in the same table. */
  ghost predicate SameTables(info: map<nat, Info>, info': map<nat, Info>) {
    && info.Keys == info'.Keys
    && forall id :: id in info ==> info'[id].addr == info[id].addr && info'[id].fInTried == info[id].fInTried
  }

  lemma ShapeKeepsTables(h: Hashes, key: nat, info: map<nat, Info>, info': map<nat, Info>, addr: map<nat, nat>,
                         tried: seq<seq<nat>>)
    requires SameTables(info, info') && AddrOk(info, addr) && TriedOk(h, key, info, tried)
    ensures AddrOk(info', addr) && TriedOk(h, key, info', tried)
    ensures forall b :: Ids(info', b) == Ids(info, b)
  {
  }

  lemma ShapeKeepsNew(info: map<nat, Info>, info': map<nat, Info>, news: seq<set<nat>>, x: set<nat>)
    requires SameShape(info, info') && NewOk(info, news, x)
    ensures NewOk(info', news, x)
  {
    forall id | id in info' && id !in x ensures RefsOk(news, id, info'[id]) { assert RefsOk(news, id, info[id]); }
  }

  lemma ShapeKeepsInv(h: Hashes, t: Tables, t': Tables, x: set<nat>)
    requires InvBut(h, t, x) && SameShape(t.info, t'.info) && RandomOk(t'.info, t'.random)
    requires t' == t.(info := t'.info, random := t'.random)
    ensures InvBut(h, t', x)
  {
    hide TriedOk, AddrOk, NewOk, RandomOk;
    ShapeKeepsTables(h, t.nKey, t.info, t'.info, t.addr, t.tried);
    ShapeKeepsNew(t.info, t'.info, t.news, x);
  }

  // ---------- taking an entry out of a new bucket ----------

  /** The entry is gone from every index; the last of the shuffled list takes its place. */
  function Forgotten(t: Tables, id: nat): Tables
    requires id in t.info && 0 <= t.info[id].nRandomPos < |t.random|
    requires t.random[t.info[id].nRandomPos] == id && t.random[|t.random| - 1] in t.info
  {
    var t' := Swapped(t, t.info[id].nRandomPos, |t.random| - 1);
    t'.(info := t'.info - {id}, addr := t'.addr - {t.info[id].addr.ip},
        random := t'.random[..|t.random| - 1], nNew := t.nNew - 1)
  }

  ghost predicate CanDrop(t: Tables, b: nat, id: nat) {
    b < |t.news| && id in t.news[b] && id in t.info && RandomOk(t.info, t.random)
  }

  /** One reference less; with the last one, the entry itself goes. */
  ghost function DropFrom(t: Tables, b: nat, id: nat): Tables
    requires CanDrop(t, b, id)
  {
    var e := t.info[id];
    var t1 := t.(info := t.info[id := e.(nRefCount := e.nRefCount - 1)]);
    var t2 := if e.nRefCount == 1 then Forgotten(t1, id) else t1;
    t2.(news := t.news[b := t.news[b] - {id}])
  }

  lemma PopRandomOk(info: map<nat, Info>, random: seq<nat>, id: nat)
    requires RandomOk(info, random) && random != [] && random[|random| - 1] == id
    ensures RandomOk(info - {id}, random[..|random| - 1])
  {
    var info', random' := info - {id}, random[..|random| - 1];
    forall j | j in info'
      ensures 0 <= info'[j].nRandomPos < |random'| && random'[info'[j].nRandomPos] == j
    {
      assert random[info[j].nRandomPos] == j;
    }
  }

  lemma ForgottenRandomOk(t: Tables, id: nat)
    requires RandomOk(t.info, t.random) && id in t.info
    ensures var t' := Forgotten(t, id);
            && RandomOk(t'.info, t'.random)
            && t'.info.Keys == t.info.Keys - {id} && SameButPlaces(t.info - {id}, t'.info)
  {
    hide Swapped, RandomOk, SameButPlaces;
    PlaceIs(t, id);
    SwappedRandomOk(t, t.info[id].nRandomPos, |t.random| - 1);
    var s := Swapped(t, t.info[id].nRandomPos, |t.random| - 1);
    PopRandomOk(s.info, s.random, id);
    SameButPlacesLess(t.info, s.info, id);
  }

  lemma PlaceIs(t: Tables, id: nat)
    requires RandomOk(t.info, t.random) && id in t.info
    ensures 0 <= t.info[id].nRandomPos < |t.random| && t.random[t.info[id].nRandomPos] == id
    ensures t.random[|t.random| - 1] in t.info
  {
  }

  lemma SameButPlacesLess(info: map<nat, Info>, info': map<nat, Info>, id: nat)
    requires SameButPlaces(info, info')
    ensures SameButPlaces(info - {id}, info' - {id}) && (info' - {id}).Keys == info.Keys - {id}
  {
  }

  lemma HoldersDrop(news: seq<set<nat>>, b: nat, id: nat, j: nat)
    requires b < |news|
    ensures Holders(news[b := news[b] - {id}], j) == if j == id then Holders(news, j) - {b} else Holders(news, j)
  {
  }

  lemma HoldersAdd(news: seq<set<nat>>, b: nat, id: nat, j: nat)
    requires b < |news|
    ensures Holders(news[b := news[b] + {id}], j) == if j == id then Holders(news, j) + {b} else Holders(news, j)
  {
  }

  lemma DropNewOk(info: map<nat, Info>, news: seq<set<nat>>, x: set<nat>, b: nat, id: nat)
    requires NewOk(info, news, x) && b < |news| && id in news[b] && id !in x
    ensures var news' := news[b := news[b] - {id}];
            var e := info[id].(nRefCount := info[id].nRefCount - 1);
            && (e.nRefCount > 0 ==> NewOk(info[id := e], news', x))
            && (e.nRefCount == 0 ==> NewOk(info - {id}, news', x))
  {
    var news' := news[b := news[b] - {id}];
    HoldersDrop(news, b, id, id);
    assert RefsOk(news, id, info[id]);
    assert b in Holders(news, id);
    if info[id].nRefCount == 1 {
      assert Holders(news', id) == {};
      forall c | 0 <= c < |news'| ensures id !in news'[c] {
        assert c !in Holders(news', id);
      }
    }
    forall j | j in info && j != id && j !in x ensures RefsOk(news', j, info[j]) {
      HoldersDrop(news, b, id, j);
      assert RefsOk(news, j, info[j]);
    }
  }

  lemma DropTables(h: Hashes, key: nat, info: map<nat, Info>, addr: map<nat, nat>, tried: seq<seq<nat>>, id: nat)
    requires AddrOk(info, addr) && TriedOk(h, key, info, tried) && id in info && !info[id].fInTried
    ensures AddrOk(info - {id}, addr - {info[id].addr.ip}) && TriedOk(h, key, info - {id}, tried)
    ensures Ids(info - {id}, true) == Ids(info, true) && Ids(info - {id}, false) == Ids(info, false) - {id}
  {
  }

  lemma RefChangeKeeps(h: Hashes, t: Tables, id: nat, refs: int)
    requires RandomOk(t.info, t.random) && AddrOk(t.info, t.addr) && TriedOk(h, t.nKey, t.info, t.tried) && id in t.info
    ensures var info' := t.info[id := t.info[id].(nRefCount := refs)];
            && RandomOk(info', t.random) && AddrOk(info', t.addr) && TriedOk(h, t.nKey, info', t.tried)
            && Ids(info', true) == Ids(t.info, true) && Ids(info', false) == Ids(t.info, false)
  {
    var info' := t.info[id := t.info[id].(nRefCount := refs)];
    assert RandomOk(info', t.random);
    hide AddrOk, TriedOk, RandomOk;
    ShapeKeepsTables(h, t.nKey, t.info, info', t.addr, t.tried);
  }

  lemma DropKeeping(h: Hashes, t: Tables, b: nat, id: nat, x: set<nat>)
    requires InvBut(h, t, x) && CanDrop(t, b, id) && id !in x && t.info[id].nRefCount != 1
    ensures InvBut(h, DropFrom(t, b, id), x)
  {
    assert RefsOk(t.news, id, t.info[id]);
    DropNewOk(t.info, t.news, x, b, id);
    RefChangeKeeps(h, t, id, t.info[id].nRefCount - 1);
    hide NewOk, RandomOk, AddrOk, TriedOk;
  }

  lemma DropForgettingIs(t: Tables, b: nat, id: nat)
    requires CanDrop(t, b, id) && t.info[id].nRefCount == 1
    ensures var t' := DropFrom(t, b, id);
            && t' == t.(info := t'.info, addr := t.addr - {t.info[id].addr.ip}, random := t'.random,
                        nNew := t.nNew - 1, news := t.news[b := t.news[b] - {id}])
            && RandomOk(t'.info, t'.random) && SameButPlaces(t.info - {id}, t'.info)
  {
    var t1 := t.(info := t.info[id := t.info[id].(nRefCount := 0)]);
    assert RandomOk(t1.info, t1.random);
    var t2, t' := Forgotten(t1, id), DropFrom(t, b, id);
    ForgottenRandomOk(t1, id);
    assert t2 == t1.(info := t2.info, addr := t2.addr, random := t2.random, nNew := t2.nNew);
    hide RandomOk, Forgotten;
    assert t1.info - {id} == t.info - {id};
  }

  lemma DropForgetting(h: Hashes, t: Tables, b: nat, id: nat, x: set<nat>)
    requires InvBut(h, t, x) && CanDrop(t, b, id) && id !in x && t.info[id].nRefCount == 1
    ensures InvBut(h, DropFrom(t, b, id), x)
  {
    assert RefsOk(t.news, id, t.info[id]);
    hide RandomOk, AddrOk, TriedOk, DropFrom;
    DropNewOk(t.info, t.news, x, b, id);
    DropTables(h, t.nKey, t.info, t.addr, t.tried, id);
    DropForgettingIs(t, b, id);
    var s := t.(info := t.info - {id}, addr := t.addr - {t.info[id].addr.ip}, news := t.news[b := t.news[b] - {id}]);
    ForgetShape(h, s, DropFrom(t, b, id), x);
  }

  /** Dropping an entry from a new bucket keeps the tables in order, and forgets no entry but
      that one. */
  lemma DropInv(h: Hashes, t: Tables, b: nat, id: nat, x: set<nat>)
    requires InvBut(h, t, x) && b < |t.news| && id in t.news[b] && id !in x
    ensures CanDrop(t, b, id) && InvBut(h, DropFrom(t, b, id), x)
  {
    if t.info[id].nRefCount == 1 { DropForgetting(h, t, b, id, x); } else { DropKeeping(h, t, b, id, x); }
  }

  lemma ForgetShape(h: Hashes, s: Tables, t': Tables, x: set<nat>)
    requires AddrOk(s.info, s.addr) && TriedOk(h, s.nKey, s.info, s.tried) && NewOk(s.info, s.news, x)
    requires RandomOk(t'.info, t'.random) && SameButPlaces(s.info, t'.info)
    requires t' == s.(info := t'.info, random := t'.random, nNew := t'.nNew)
    requires t'.nTried == |Ids(s.info, true)| && t'.nNew == |Ids(s.info, false)| && IdsOk(s)
    ensures InvBut(h, t', x)
  {
    hide TriedOk, AddrOk, NewOk, RandomOk;
    ShapeKeepsTables(h, s.nKey, s.info, t'.info, s.addr, s.tried);
    ShapeKeepsNew(s.info, t'.info, s.news, x);
  }

  // ---------- a new entry, and one more reference ----------

  function Created(t: Tables, e: Info): Tables {
    t.(nIdCount := t.nIdCount + 1,
       info := t.info[t.nIdCount := e.(nRefCount := 0, fInTried := false, nRandomPos := |t.random|)],
       addr := t.addr[e.addr.ip := t.nIdCount], random := t.random + [t.nIdCount], nNew := t.nNew + 1)
  }

  lemma CreatedNewOk(t: Tables, e: Info)
    requires NewOk(t.info, t.news, {}) && t.nIdCount !in t.info
    ensures var t' := Created(t, e);
            && NewOk(t'.info, t'.news, {t.nIdCount}) && Holders(t.news, t.nIdCount) == {}
            && Ids(t'.info, true) == Ids(t.info, true) && Ids(t'.info, false) == Ids(t.info, false) + {t.nIdCount}
  {
    var t' := Created(t, e);
    forall j | j in t'.info && j != t.nIdCount ensures RefsOk(t'.news, j, t'.info[j]) {
      assert RefsOk(t.news, j, t.info[j]);
    }
  }

  lemma CreatedInv(h: Hashes, t: Tables, e: Info)
    requires Inv(h, t) && e.addr.ip !in t.addr
    ensures InvBut(h, Created(t, e), {t.nIdCount}) && Holders(t.news, t.nIdCount) == {}
  {
    hide RandomOk, AddrOk, TriedOk, NewOk;
    CreatedTables(h, t, e);
    CreatedNewOk(t, e);
  }

  lemma CreatedTables(h: Hashes, t: Tables, e: Info)
    requires RandomOk(t.info, t.random) && AddrOk(t.info, t.addr) && TriedOk(h, t.nKey, t.info, t.tried)
    requires t.nIdCount !in t.info && e.addr.ip !in t.addr
    ensures var t' := Created(t, e);
            RandomOk(t'.info, t'.random) && AddrOk(t'.info, t'.addr) && TriedOk(h, t.nKey, t'.info, t.tried)
  {
    CreatedRandomOk(t, e);
    CreatedAddrOk(t, e);
    CreatedTriedOk(h, t, e);
  }

  lemma CreatedRandomOk(t: Tables, e: Info)
    requires RandomOk(t.info, t.random) && t.nIdCount !in t.info
    ensures RandomOk(Created(t, e).info, Created(t, e).random)
  {
  }

  lemma CreatedAddrOk(t: Tables, e: Info)
    requires AddrOk(t.info, t.addr) && t.nIdCount !in t.info && e.addr.ip !in t.addr
    ensures AddrOk(Created(t, e).info, Created(t, e).addr)
  {
  }

  lemma CreatedTriedOk(h: Hashes, t: Tables, e: Info)
    requires TriedOk(h, t.nKey, t.info, t.tried) && t.nIdCount !in t.info
    ensures TriedOk(h, t.nKey, Created(t, e).info, t.tried)
  {
  }

  function Bumped(t: Tables, id: nat): Tables
    requires id in t.info
  {
    t.(info := t.info[id := t.info[id].(nRefCount := t.info[id].nRefCount + 1)])
  }

  /** One more reference, from bucket b: a victim of that bucket makes room if need be. */
  ghost function Placed(t: Tables, id: nat, b: nat, victim: nat): Tables
    requires id in t.info && b < |t.news|
    requires |t.news[b]| == NEW_BUCKET_SIZE ==> CanDrop(Bumped(t, id), b, victim)
  {
    var t1 := Bumped(t, id);
    var t2 := if |t.news[b]| == NEW_BUCKET_SIZE then DropFrom(t1, b, victim) else t1;
    t2.(news := t2.news[b := t2.news[b] + {id}])
  }

  lemma BumpedNewOk(info: map<nat, Info>, news: seq<set<nat>>, id: nat, refs: int)
    requires NewOk(info, news, {id}) && id in info
    ensures NewOk(info[id := info[id].(nRefCount := refs)], news, {id})
  {
    hide RefsOk;
  }

  lemma BumpedInv(h: Hashes, t: Tables, id: nat)
    requires InvBut(h, t, {id}) && id in t.info
    ensures InvBut(h, Bumped(t, id), {id})
  {
    hide RandomOk, AddrOk, TriedOk, NewOk;
    RefChangeKeeps(h, t, id, t.info[id].nRefCount + 1);
    BumpedNewOk(t.info, t.news, id, t.info[id].nRefCount + 1);
  }

  lemma InsertedRefs(news: seq<set<nat>>, b: nat, id: nat, j: nat, e: Info)
    requires b < |news| && id !in news[b]
    requires if j == id then !e.fInTried && e.nRefCount == |Holders(news, id)| + 1 <= NEW_BUCKETS_PER_ADDRESS
             else RefsOk(news, j, e)
    ensures RefsOk(news[b := news[b] + {id}], j, e)
  {
    HoldersAdd(news, b, id, j);
  }

  lemma InsertedNewOk(info: map<nat, Info>, news: seq<set<nat>>, id: nat, b: nat)
    requires NewOk(info, news, {id}) && id in info && !info[id].fInTried
    requires b < |news| && id !in news[b] && |news[b]| < NEW_BUCKET_SIZE
    requires info[id].nRefCount == |Holders(news, id)| + 1 <= NEW_BUCKETS_PER_ADDRESS
    ensures NewOk(info, news[b := news[b] + {id}], {})
  {
    hide RefsOk;
    forall j | j in info ensures RefsOk(news[b := news[b] + {id}], j, info[j]) {
      InsertedRefs(news, b, id, j, info[j]);
    }
  }

  lemma InsertedInv(h: Hashes, t: Tables, id: nat, b: nat)
    requires InvBut(h, t, {id}) && id in t.info && !t.info[id].fInTried
    requires b < |t.news| && id !in t.news[b] && |t.news[b]| < NEW_BUCKET_SIZE
    requires t.info[id].nRefCount == |Holders(t.news, id)| + 1 <= NEW_BUCKETS_PER_ADDRESS
    ensures Inv(h, t.(news := t.news[b := t.news[b] + {id}]))
  {
    hide RandomOk, AddrOk, TriedOk, NewOk;
    InsertedNewOk(t.info, t.news, id, b);
  }

  /** What a drop leaves alone. */
  lemma DropFrame(t: Tables, b: nat, id: nat)
    requires CanDrop(t, b, id)
    ensures var t' := DropFrom(t, b, id);
            && t'.news == t.news[b := t.news[b] - {id}] && t'.tried == t.tried && t'.nKey == t.nKey
            && t'.info.Keys == (if t.info[id].nRefCount == 1 then t.info.Keys - {id} else t.info.Keys)
            && forall j :: j in t'.info && j != id ==> t'.info[j] == t.info[j].(nRandomPos := t'.info[j].nRandomPos)
  {
    if t.info[id].nRefCount == 1 { DropForgettingIs(t, b, id); }
  }

  lemma PlacedInv(h: Hashes, t: Tables, id: nat, b: nat, victim: nat)
    requires InvBut(h, t, {id}) && id in t.info && !t.info[id].fInTried
    requires b < |t.news| && id !in t.news[b]
    requires t.info[id].nRefCount == |Holders(t.news, id)| < NEW_BUCKETS_PER_ADDRESS
    requires |t.news[b]| == NEW_BUCKET_SIZE ==> victim in t.news[b]
    ensures |t.news[b]| == NEW_BUCKET_SIZE ==> CanDrop(Bumped(t, id), b, victim)
    ensures Inv(h, Placed(t, id, b, victim))
  {
    BumpedInv(h, t, id);
    assert |t.news[b]| <= NEW_BUCKET_SIZE && Bumped(t, id).news == t.news;
    if |t.news[b]| == NEW_BUCKET_SIZE {
      PlacedFullInv(h, Bumped(t, id), id, b, victim);
    } else {
      InsertedInv(h, Bumped(t, id), id, b);
    }
    hide InvBut;
  }

  lemma PlacedFullInv(h: Hashes, t: Tables, id: nat, b: nat, victim: nat)
    requires InvBut(h, t, {id}) && id in t.info && !t.info[id].fInTried
    requires b < |t.news| && id !in t.news[b] && |t.news[b]| <= NEW_BUCKET_SIZE && victim in t.news[b]
    requires t.info[id].nRefCount == |Holders(t.news, id)| + 1 <= NEW_BUCKETS_PER_ADDRESS
    ensures CanDrop(t, b, victim)
    ensures var t' := DropFrom(t, b, victim); Inv(h, t'.(news := t'.news[b := t'.news[b] + {id}]))
  {
    hide InvBut, DropFrom, Holders, CanDrop;
    DropInv(h, t, b, victim, {id});
    DropFrame(t, b, victim);
    HoldersDrop(t.news, b, victim, id);
    RemoveCard(t.news[b], victim);
    InsertedInv(h, DropFrom(t, b, victim), id, b);
  }

  lemma RemoveCard(s: set<nat>, x: nat)
    requires x in s
    ensures |s - {x}| == |s| - 1
  {
  }

  // ---------- into the tried table ----------

  /** The entry leaves every new bucket. */
  function Unlisted(t: Tables, id: nat): Tables
    requires id in t.info
  {
    t.(news := seq(|t.news|, b requires 0 <= b < |t.news| => t.news[b] - {id}),
       info := t.info[id := t.info[id].(nRefCount := 0)])
  }

  /** ... and joins a tried bucket that has room for it. */
  function Promoted(t: Tables, id: nat, k: nat): Tables
    requires id in t.info && k < |t.tried|
  {
    var u := Unlisted(t, id);
    u.(tried := t.tried[k := t.tried[k] + [id]], info := u.info[id := u.info[id].(fInTried := true)],
       nTried := t.nTried + 1, nNew := t.nNew - 1)
  }

  /** ... or takes the place of another, which goes back to the new bucket `target`; `bucket`
      is the tried bucket as the search for a victim has shuffled it. */
  function Exchanged(t: Tables, id: nat, k: nat, bucket: seq<nat>, pos: nat, target: nat): Tables
    requires id in t.info && k < |t.tried| && pos < |bucket| && bucket[pos] in t.info && target < |t.news|
  {
    var u := Unlisted(t, id);
    var evicted := bucket[pos];
    var info1 := u.info[evicted := u.info[evicted].(fInTried := false, nRefCount := 1)];
    u.(tried := t.tried[k := bucket[pos := id]], info := info1[id := info1[id].(fInTried := true)],
       news := u.news[target := u.news[target] + {evicted}])
  }

  lemma HoldersUnlisted(t: Tables, id: nat, j: nat)
    requires id in t.info
    ensures Holders(Unlisted(t, id).news, j) == if j == id then {} else Holders(t.news, j)
  {
  }

  lemma UnlistedNewOk(t: Tables, id: nat)
    requires NewOk(t.info, t.news, {}) && id in t.info
    ensures NewOk(Unlisted(t, id).info, Unlisted(t, id).news, {id})
    ensures forall b :: 0 <= b < |t.news| ==> id !in Unlisted(t, id).news[b]
  {
    var u := Unlisted(t, id);
    forall b | 0 <= b < |u.news| ensures |u.news[b]| <= |t.news[b]| {
      assert u.news[b] <= t.news[b];
      SubsetCard(u.news[b], t.news[b]);
    }
    forall j | j in u.info && j != id ensures RefsOk(u.news, j, u.info[j]) {
      HoldersUnlisted(t, id, j);
      assert RefsOk(t.news, j, t.info[j]);
    }
  }

  lemma AddrKeeps(info: map<nat, Info>, info': map<nat, Info>, addr: map<nat, nat>, random: seq<nat>)
    requires AddrOk(info, addr) && RandomOk(info, random) && info.Keys == info'.Keys
    requires forall id :: id in info ==> info'[id].addr == info[id].addr && info'[id].nRandomPos == info[id].nRandomPos
    ensures AddrOk(info', addr) && RandomOk(info', random)
  {
  }

  lemma PromotedNewOk(t: Tables, id: nat, k: nat)
    requires NewOk(t.info, t.news, {}) && id in t.info && !t.info[id].fInTried && k < |t.tried|
    ensures var t' := Promoted(t, id, k);
            && NewOk(t'.info, t'.news, {})
            && Ids(t'.info, true) == Ids(t.info, true) + {id} && Ids(t'.info, false) == Ids(t.info, false) - {id}
  {
    var u, t' := Unlisted(t, id), Promoted(t, id, k);
    UnlistedNewOk(t, id);
    forall j | j in t'.info ensures RefsOk(t'.news, j, t'.info[j]) {
      if j != id { assert RefsOk(u.news, j, u.info[j]); }
    }
  }

  lemma PromotedTriedOk(h: Hashes, key: nat, info: map<nat, Info>, info': map<nat, Info>, tried: seq<seq<nat>>, id: nat)
    requires TriedOk(h, key, info, tried) && id in info && !info[id].fInTried
    requires |tried[h.TriedBucket(key, info[id].addr)]| < TRIED_BUCKET_SIZE
    requires info'.Keys == info.Keys && forall j :: j in info && j != id ==> info'[j] == info[j]
    requires info'[id].addr == info[id].addr && info'[id].fInTried
    ensures var k := h.TriedBucket(key, info[id].addr); TriedOk(h, key, info', tried[k := tried[k] + [id]])
  {
    var k := h.TriedBucket(key, info[id].addr);
    assert id !in tried[k];
    AppendDistinct(tried[k], id);
    hide Distinct;
  }

  lemma AppendDistinct(s: seq<nat>, x: nat)
    requires Distinct(s) && x !in s
    ensures Distinct(s + [x])
  {
  }

  function PromotedEntry(j: nat, id: nat, e: Info): Info {
    if j == id then e.(fInTried := true, nRefCount := 0) else e
  }

  lemma PromotedInfo(t: Tables, id: nat, k: nat)
    requires id in t.info && k < |t.tried|
    ensures var t' := Promoted(t, id, k);
            && t' == t.(info := t'.info, news := t'.news, tried := t.tried[k := t.tried[k] + [id]],
                        nTried := t.nTried + 1, nNew := t.nNew - 1)
            && t'.info.Keys == t.info.Keys
            && forall j :: j in t.info ==> t'.info[j] == PromotedEntry(j, id, t.info[j])
  {
  }

  lemma PromotedInv(h: Hashes, t: Tables, id: nat)
    requires Inv(h, t) && id in t.info && !t.info[id].fInTried
    requires var k := h.TriedBucket(t.nKey, t.info[id].addr);
             |t.tried| == TRIED_BUCKET_COUNT && |t.tried[k]| < TRIED_BUCKET_SIZE
    ensures Inv(h, Promoted(t, id, h.TriedBucket(t.nKey, t.info[id].addr)))
  {
    var k := h.TriedBucket(t.nKey, t.info[id].addr);
    hide RandomOk, AddrOk, TriedOk, NewOk, CountsOk, IdsOk, Promoted;
    PromotedNewOk(t, id, k);
    PromotedCounts(t, id, k);
    PromotedRest(t, id, k);
    PromotedTriedOk(h, t.nKey, t.info, Promoted(t, id, k).info, t.tried, id);
  }

  lemma PromotedCounts(t: Tables, id: nat, k: nat)
    requires NewOk(t.info, t.news, {}) && id in t.info && !t.info[id].fInTried && k < |t.tried| && CountsOk(t)
    ensures CountsOk(Promoted(t, id, k))
  {
    assert id in Ids(t.info, false) && id !in Ids(t.info, true);
    hide NewOk, Ids;
    PromotedNewOk(t, id, k);
    MoveCard(Ids(t.info, false), Ids(t.info, true), id);
  }

  lemma PromotedRest(t: Tables, id: nat, k: nat)
    requires AddrOk(t.info, t.addr) && RandomOk(t.info, t.random) && IdsOk(t) && id in t.info && k < |t.tried|
    ensures var t' := Promoted(t, id, k);
            && AddrOk(t'.info, t'.addr) && RandomOk(t'.info, t'.random) && IdsOk(t') && t'.nKey == t.nKey
            && t'.tried == t.tried[k := t.tried[k] + [id]] && t'.info.Keys == t.info.Keys
            && t'.info[id].addr == t.info[id].addr && t'.info[id].fInTried
            && forall j :: j in t.info && j != id ==> t'.info[j] == t.info[j]
  {
    PromotedInfo(t, id, k);
    hide RandomOk, AddrOk, Promoted;
    AddrKeeps(t.info, Promoted(t, id, k).info, t.addr, t.random);
  }

  // The same for the exchange.

  function ExchangedEntry(j: nat, id: nat, evicted: nat, e: Info): Info {
    if j == evicted then e.(fInTried := false, nRefCount := 1) else PromotedEntry(j, id, e)
  }

  lemma ExchangedInfo(t: Tables, id: nat, k: nat, bucket: seq<nat>, pos: nat, target: nat)
    requires id in t.info && k < |t.tried| && pos < |bucket| && bucket[pos] in t.info && bucket[pos] != id
    requires target < |t.news|
    ensures var t' := Exchanged(t, id, k, bucket, pos, target);
            && t' == t.(info := t'.info, news := t'.news, tried := t.tried[k := bucket[pos := id]])
            && t'.news == Unlisted(t, id).news[target := Unlisted(t, id).news[target] + {bucket[pos]}]
            && t'.info.Keys == t.info.Keys
            && forall j :: j in t.info ==> t'.info[j] == ExchangedEntry(j, id, bucket[pos], t.info[j])
  {
  }

  lemma ExchangedRefs(info: map<nat, Info>, news: seq<set<nat>>, id: nat, evicted: nat, target: nat,
                      info': map<nat, Info>)
    requires id in info && evicted in info && id != evicted && info[evicted].fInTried
    requires NewOk(info, news, {id}) && forall b :: 0 <= b < |news| ==> id !in news[b]
    requires target < |news| && |news[target]| < NEW_BUCKET_SIZE && info'.Keys == info.Keys
    requires forall j :: j in info ==> info'[j] == ExchangedEntry(j, id, evicted, info[j])
    ensures NewOk(info', news[target := news[target] + {evicted}], {})
  {
    hide RefsOk;
    forall j | j in info' ensures RefsOk(news[target := news[target] + {evicted}], j, info'[j]) {
      ExchangedRef(info, news, id, evicted, target, info', j);
    }
  }

  lemma ExchangedRef(info: map<nat, Info>, news: seq<set<nat>>, id: nat, evicted: nat, target: nat,
                     info': map<nat, Info>, j: nat)
    requires id in info && evicted in info && id != evicted && info[evicted].fInTried && j in info
    requires NewOk(info, news, {id}) && target < |news| && info'.Keys == info.Keys
    requires forall j :: j in info ==> info'[j] == ExchangedEntry(j, id, evicted, info[j])
    ensures RefsOk(news[target := news[target] + {evicted}], j, info'[j])
  {
    HoldersAdd(news, target, evicted, j);
    assert Holders(news, evicted) == {};
    if j != id && j != evicted { assert RefsOk(news, j, info[j]); }
  }

  lemma ExchangedNewOk(t: Tables, id: nat, k: nat, bucket: seq<nat>, pos: nat, target: nat)
    requires NewOk(t.info, t.news, {}) && id in t.info && !t.info[id].fInTried && k < |t.tried|
    requires pos < |bucket| && bucket[pos] in t.info && t.info[bucket[pos]].fInTried
    requires target < |t.news| && |Unlisted(t, id).news[target]| < NEW_BUCKET_SIZE
    ensures NewOk(Exchanged(t, id, k, bucket, pos, target).info, Exchanged(t, id, k, bucket, pos, target).news, {})
  {
    var u := Unlisted(t, id);
    UnlistedNewOk(t, id);
    assert |u.news| == |t.news| && u.info == t.info[id := t.info[id].(nRefCount := 0)];
    hide NewOk, Exchanged, Unlisted;
    ExchangedInfo(t, id, k, bucket, pos, target);
    ExchangedRefs(u.info, u.news, id, bucket[pos], target, Exchanged(t, id, k, bucket, pos, target).info);
  }

  ghost predicate Shuffled(s: seq<nat>, s': seq<nat>) {
    |s| == |s'| && Distinct(s') && forall x :: x in s <==> x in s'
  }

  lemma ExchangedTriedOk(h: Hashes, key: nat, info: map<nat, Info>, info': map<nat, Info>, tried: seq<seq<nat>>,
                         id: nat, bucket: seq<nat>, pos: nat)
    requires TriedOk(h, key, info, tried) && id in info && !info[id].fInTried
    requires Shuffled(tried[h.TriedBucket(key, info[id].addr)], bucket) && pos < |bucket|
    requires bucket[pos] in info && bucket[pos] != id
    requires info'.Keys == info.Keys && forall j :: j in info && j != id && j != bucket[pos] ==> info'[j] == info[j]
    requires info'[id].addr == info[id].addr && info'[id].fInTried && !info'[bucket[pos]].fInTried
    ensures TriedOk(h, key, info', tried[h.TriedBucket(key, info[id].addr) := bucket[pos := id]])
  {
    var k := h.TriedBucket(key, info[id].addr);
    var tried' := tried[k := bucket[pos := id]];
    assert id !in bucket && Distinct(bucket) && |bucket| == |tried[k]| && forall x :: x in tried[k] <==> x in bucket;
    assert bucket[pos] in tried[k];
    ReplacedMembers(bucket, pos, id);
    hide Distinct, Shuffled;
    forall b, j | 0 <= b < |tried'| && j in tried'[b]
      ensures j in info' && info'[j].fInTried && h.TriedBucket(key, info'[j].addr) == b
    {
      if b == k && j != id { assert j in tried[k]; }
    }
  }

  lemma ReplacedMembers(bucket: seq<nat>, pos: nat, id: nat)
    requires Distinct(bucket) && pos < |bucket| && id !in bucket
    ensures Distinct(bucket[pos := id])
    ensures forall x :: x in bucket[pos := id] <==> x == id || (x in bucket && x != bucket[pos])
  {
    forall x | x in bucket && x != bucket[pos] ensures x in bucket[pos := id] {
      var i :| 0 <= i < |bucket| && bucket[i] == x;
      assert bucket[pos := id][i] == x;
    }
    assert bucket[pos := id][pos] == id;
  }

  lemma ExchangedIds(info: map<nat, Info>, info': map<nat, Info>, id: nat, evicted: nat)
    requires id in info && !info[id].fInTried && evicted in info && info[evicted].fInTried && info'.Keys == info.Keys
    requires forall j :: j in info ==> info'[j] == ExchangedEntry(j, id, evicted, info[j])
    ensures |Ids(info', true)| == |Ids(info, true)| && |Ids(info', false)| == |Ids(info, false)|
  {
    assert Ids(info', true) == Ids(info, true) - {evicted} + {id};
    assert Ids(info', false) == Ids(info, false) - {id} + {evicted};
    SwapCard(Ids(info, true), evicted, id);
    SwapCard(Ids(info, false), id, evicted);
    hide ExchangedEntry;
  }

  lemma MoveCard(s: set<nat>, s': set<nat>, x: nat)
    requires x in s && x !in s'
    ensures |s - {x}| == |s| - 1 && |s' + {x}| == |s'| + 1
  {
  }

  lemma SwapCard(s: set<nat>, x: nat, y: nat)
    requires x in s && y !in s
    ensures |s - {x} + {y}| == |s|
  {
  }

  lemma ExchangedInv(h: Hashes, t: Tables, id: nat, bucket: seq<nat>, pos: nat, target: nat)
    requires Inv(h, t) && id in t.info && !t.info[id].fInTried
    requires var k := h.TriedBucket(t.nKey, t.info[id].addr);
             |t.tried| == TRIED_BUCKET_COUNT && Shuffled(t.tried[k], bucket)
    requires pos < |bucket| && bucket[pos] in t.info && t.info[bucket[pos]].fInTried
    requires target < |t.news| && |Unlisted(t, id).news[target]| < NEW_BUCKET_SIZE
    ensures Inv(h, Exchanged(t, id, h.TriedBucket(t.nKey, t.info[id].addr), bucket, pos, target))
  {
    hide RandomOk, AddrOk, TriedOk, NewOk, Exchanged, Unlisted;
    var k := h.TriedBucket(t.nKey, t.info[id].addr);
    var t' := Exchanged(t, id, k, bucket, pos, target);
    ExchangedInfo(t, id, k, bucket, pos, target);
    ExchangedIds(t.info, t'.info, id, bucket[pos]);
    ExchangedNewOk(t, id, k, bucket, pos, target);
    ExchangedTriedOk(h, t.nKey, t.info, t'.info, t.tried, id, bucket, pos);
    AddrKeeps(t.info, t'.info, t.addr, t.random);
  }
}
