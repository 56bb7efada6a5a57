/** Writing the tables and reading them back gives the same tables, renumbered. */
module AddrReload {
  import opened Basics
  import opened Options
  import opened AddrTables
  import opened AddrOps
  import opened AddrCheck
  import opened AddrStream

  /** The order in which entries are written: the new ones by id, then the tried ones.  Read
      back, an entry's number is its place here. */
  ghost function Order(t: Tables): seq<nat> { NewIds(t) + TriedIds(t) }

  /** `order` lists every id once, the new ones before place m and the tried ones after. */
  ghost predicate IsOrder(info: map<nat, Info>, order: seq<nat>, m: nat) {
    && Distinct(order) && m <= |order|
    && (forall k :: 0 <= k < |order| ==> order[k] in info && (info[order[k]].fInTried <==> k >= m))
    && (forall id :: id in info ==> id in order)
  }

  lemma OrderIs(t: Tables)
    requires CountsOk(t)
    ensures IsOrder(t.info, Order(t), |NewIds(t)|) && |NewIds(t)| == t.nNew && |TriedIds(t)| == t.nTried
  {
    SortedIs(Ids(t.info, false));
    SortedIs(Ids(t.info, true));
    DistinctConcat(NewIds(t), TriedIds(t));
    forall k | 0 <= k < |Order(t)|
      ensures Order(t)[k] in t.info && (t.info[Order(t)[k]].fInTried <==> k >= |NewIds(t)|)
    {
      if k < |NewIds(t)| {
        assert NewIds(t)[k] in NewIds(t);
      } else {
        assert TriedIds(t)[k - |NewIds(t)|] in TriedIds(t);
      }
    }
    forall id | id in t.info ensures id in Order(t) {
      if t.info[id].fInTried { assert id in TriedIds(t); } else { assert id in NewIds(t); }
    }
  }

  lemma {:induction false} RankIs(order: seq<nat>, k: nat)
    requires Distinct(order) && k < |order|
    ensures Rank(order, order[k]) == k
  {
    var r := Rank(order, order[k]);
    assert order[r] == order[k];
    assert r == k by { assert !(r < k) && !(k < r); }
  }

  // ---------- the tables on the way ----------

  /** An entry as read back: its last try, its count and its place are not stored. */
  function Reloaded(e: Info, k: nat): Info { InfoOf(RecordOf(e)).(nRandomPos := k, fInTried := e.fInTried) }

  ghost function ReloadedInfo(info: map<nat, Info>, order: seq<nat>, n: nat): map<nat, Info>
    requires n <= |order| && forall k :: 0 <= k < |order| ==> order[k] in info
  {
    map k: nat | k < n :: Reloaded(info[order[k]], k)
  }

  ghost function ReloadedAddr(info: map<nat, Info>, order: seq<nat>, addr: map<nat, nat>, n: nat): map<nat, nat>
    requires n <= |order|
  {
    map ip | ip in addr && addr[ip] in order && Rank(order, addr[ip]) < n :: Rank(order, addr[ip])
  }

  function Upto(n: nat): seq<nat> { seq(n, i => i) }

  /** The places up to n of the tried entries that belong in bucket b. */
  ghost function TriedUpto(h: Hashes, t: Tables, order: seq<nat>, n: nat, b: nat): seq<nat>
    requires n <= |order| && forall k :: 0 <= k < |order| ==> order[k] in t.info
  {
    if n == 0 then []
    else
      var e := t.info[order[n - 1]];
      var l := TriedUpto(h, t, order, n - 1, b);
      if e.fInTried && h.TriedBucket(t.nKey, e.addr) == b then l + [n - 1] else l
  }

  ghost function ReloadedTried(h: Hashes, t: Tables, order: seq<nat>, n: nat): seq<seq<nat>>
    requires n <= |order| && forall k :: 0 <= k < |order| ==> order[k] in t.info
  {
    seq(TRIED_BUCKET_COUNT, b requires 0 <= b < TRIED_BUCKET_COUNT => TriedUpto(h, t, order, n, b))
  }

  /** After n entries have been read. */
  ghost function After(h: Hashes, t: Tables, order: seq<nat>, n: nat): Tables
    requires n <= |order| && forall k :: 0 <= k < |order| ==> order[k] in t.info
  {
    Tables(t.nKey, n, ReloadedInfo(t.info, order, n), ReloadedAddr(t.info, order, t.addr, n), Upto(n), t.nTried,
           ReloadedTried(h, t, order, n), t.nNew, seq(NEW_BUCKET_COUNT, _ => {}))
  }

  lemma AddrStep(info: map<nat, Info>, order: seq<nat>, m: nat, addr: map<nat, nat>, n: nat)
    requires AddrOk(info, addr) && IsOrder(info, order, m) && n < |order|
    ensures ReloadedAddr(info, order, addr, n + 1) == ReloadedAddr(info, order, addr, n)[info[order[n]].addr.ip := n]
  {
    RankIs(order, n);
    var a, b := ReloadedAddr(info, order, addr, n + 1), ReloadedAddr(info, order, addr, n)[info[order[n]].addr.ip := n];
    forall ip | ip in a ensures ip in b && b[ip] == a[ip] {
      if a[ip] == n { assert addr[ip] == order[n]; }
    }
    forall ip | ip in b ensures ip in a {}
  }

  /** The places read into a tried bucket, by the entries they came from, are in the bucket
      of the original. */
  lemma {:induction false} TriedUptoIs(h: Hashes, t: Tables, order: seq<nat>, m: nat, n: nat, b: nat)
    requires IsOrder(t.info, order, m) && n <= |order|
    ensures var l := TriedUpto(h, t, order, n, b);
            && Distinct(l)
            && forall k :: k in l <==>
                 0 <= k < n && t.info[order[k]].fInTried && h.TriedBucket(t.nKey, t.info[order[k]].addr) == b
    decreases n
  {
    if n > 0 {
      TriedUptoIs(h, t, order, m, n - 1, b);
      var l := TriedUpto(h, t, order, n - 1, b);
      assert n - 1 !in l;
      DistinctConcat(l, [n - 1]);
    }
  }

  lemma TriedUptoRoom(h: Hashes, t: Tables, order: seq<nat>, m: nat, n: nat, b: nat)
    requires TriedOk(h, t.nKey, t.info, t.tried) && IsOrder(t.info, order, m) && n <= |order| && b < TRIED_BUCKET_COUNT
    ensures |TriedUpto(h, t, order, n, b)| <= TRIED_BUCKET_SIZE
  {
    TriedUptoIs(h, t, order, m, n, b);
    var l := TriedUpto(h, t, order, n, b);
    hide TriedUpto;
    assert forall k :: k in l ==> k < |order| && order[k] in t.tried[b];
    assert Distinct(order) && Distinct(l) && |t.tried[b]| <= TRIED_BUCKET_SIZE;
    hide TriedOk, IsOrder, Distinct;
    PlacesFit(order, l, t.tried[b]);
  }

  /** Different places of a list without repeats are no more than its entries there. */
  lemma PlacesFit(order: seq<nat>, places: seq<nat>, s: seq<nat>)
    requires Distinct(order) && Distinct(places) && forall k :: k in places ==> k < |order| && order[k] in s
    ensures |places| <= |s|
  {
    assert forall i :: 0 <= i < |places| ==> places[i] in places;
    var ids: seq<nat> := seq(|places|, i requires 0 <= i < |places| => order[places[i]]);
    assert Distinct(ids);
    assert SetOf(ids) <= SetOf(s);
    hide Distinct, SetOf;
    SetOfCard(ids);
    SetOfCard(s);
    SubsetCard(SetOf(ids), SetOf(s));
  }

  lemma InfoStep(info: map<nat, Info>, order: seq<nat>, n: nat)
    requires n < |order| && forall k :: 0 <= k < |order| ==> order[k] in info
    ensures ReloadedInfo(info, order, n + 1) == ReloadedInfo(info, order, n)[n := Reloaded(info[order[n]], n)]
    ensures Upto(n + 1) == Upto(n) + [n]
  {
  }

  lemma TriedTableStep(h: Hashes, t: Tables, order: seq<nat>, n: nat)
    requires n < |order| && forall k :: 0 <= k < |order| ==> order[k] in t.info
    ensures var b := h.TriedBucket(t.nKey, t.info[order[n]].addr);
            var tried := ReloadedTried(h, t, order, n);
            ReloadedTried(h, t, order, n + 1) == if t.info[order[n]].fInTried then tried[b := tried[b] + [n]] else tried
  {
  }

  lemma NewStep(h: Hashes, t: Tables, order: seq<nat>, m: nat, n: nat)
    requires AddrOk(t.info, t.addr) && IsOrder(t.info, order, m) && n < m
    ensures NewLoaded(h, After(h, t, order, n).(nIdCount := 0), n, RecordOf(t.info[order[n]]), NEW_BUCKET_COUNT)
         == After(h, t, order, n + 1).(nIdCount := 0)
  {
    AddrStep(t.info, order, m, t.addr, n);
    InfoStep(t.info, order, n);
    TriedTableStep(h, t, order, n);
    hide ReloadedTried, ReloadedInfo, ReloadedAddr;
  }

  lemma TriedStep(h: Hashes, t: Tables, order: seq<nat>, m: nat, n: nat)
    requires AddrOk(t.info, t.addr) && TriedOk(h, t.nKey, t.info, t.tried) && IsOrder(t.info, order, m)
    requires m <= n < |order|
    ensures TriedLoaded(h, After(h, t, order, n), RecordOf(t.info[order[n]])) == After(h, t, order, n + 1)
    ensures Lost(h, After(h, t, order, n), RecordOf(t.info[order[n]])) == 0
  {
    var b := h.TriedBucket(t.nKey, t.info[order[n]].addr);
    AddrStep(t.info, order, m, t.addr, n);
    InfoStep(t.info, order, n);
    TriedUptoRoom(h, t, order, m, n + 1, b);
    assert |ReloadedTried(h, t, order, n)[b]| < TRIED_BUCKET_SIZE;
    TriedTableStep(h, t, order, n);
    hide ReloadedTried, ReloadedInfo, ReloadedAddr, AddrOk, TriedOk, IsOrder;
  }

  lemma RecordsCons(info: map<nat, Info>, ids: seq<nat>, rest: seq<Item>)
    requires ids != [] && forall id :: id in ids ==> id in info
    ensures var s := Records(info, ids) + rest;
            s != [] && s[0] == Entry(RecordOf(info[ids[0]])) && s[1..] == Records(info, ids[1..]) + rest
  {
  }

  lemma {:induction false} NewRun(h: Hashes, t: Tables, order: seq<nat>, m: nat, n: nat, ids: seq<nat>, rest: seq<Item>)
    requires AddrOk(t.info, t.addr) && IsOrder(t.info, order, m) && n <= m == t.nNew && ids == order[n..m]
    ensures forall id :: id in ids ==> id in t.info
    ensures LoadNew(h, After(h, t, order, n).(nIdCount := 0), n, NEW_BUCKET_COUNT, Records(t.info, ids) + rest)
         == Some(Loading(After(h, t, order, m).(nIdCount := 0), rest))
    decreases m - n
  {
    var s := Records(t.info, ids) + rest;
    if n == m {
      assert s == rest;
    } else {
      NewStep(h, t, order, m, n);
      hide AddrOk, After, NewLoaded, IsOrder;
      NewRun(h, t, order, m, n + 1, ids[1..], rest);
      RecordsCons(t.info, ids, rest);
      hide Records;
    }
  }

  lemma {:induction false} TriedRun(h: Hashes, t: Tables, order: seq<nat>, m: nat, n: nat, ids: seq<nat>,
                                    rest: seq<Item>)
    requires AddrOk(t.info, t.addr) && TriedOk(h, t.nKey, t.info, t.tried) && IsOrder(t.info, order, m)
    requires m <= n <= |order| == m + t.nTried && ids == order[n..]
    ensures forall id :: id in ids ==> id in t.info
    ensures LoadTried(h, After(h, t, order, n), n - m, 0, Records(t.info, ids) + rest)
         == Some(Loading(After(h, t, order, |order|), rest))
    decreases |order| - n
  {
    hide *;
    OrderThere(t.info, order, m, n, ids);
    if n == |order| {
      TriedDone(h, t, order, m, ids, rest);
    } else {
      TriedUnfold(h, t, order, m, n, ids, rest);
      TriedRun(h, t, order, m, n + 1, ids[1..], rest);
    }
  }

  lemma OrderThere(info: map<nat, Info>, order: seq<nat>, m: nat, n: nat, ids: seq<nat>)
    requires IsOrder(info, order, m) && n <= |order| && ids == order[n..]
    ensures (forall id :: id in ids ==> id in info) && forall k :: 0 <= k < |order| ==> order[k] in info
  {
  }

  lemma TriedDone(h: Hashes, t: Tables, order: seq<nat>, m: nat, ids: seq<nat>, rest: seq<Item>)
    requires m <= |order| == m + t.nTried && ids == [] && forall k :: 0 <= k < |order| ==> order[k] in t.info
    ensures LoadTried(h, After(h, t, order, |order|), |order| - m, 0, Records(t.info, ids) + rest)
         == Some(Loading(After(h, t, order, |order|), rest))
  {
    assert Records(t.info, ids) + rest == rest;
    hide ReloadedTried, ReloadedInfo, ReloadedAddr;
  }

  lemma TriedUnfold(h: Hashes, t: Tables, order: seq<nat>, m: nat, n: nat, ids: seq<nat>, rest: seq<Item>)
    requires AddrOk(t.info, t.addr) && TriedOk(h, t.nKey, t.info, t.tried) && IsOrder(t.info, order, m)
    requires m <= n < |order| == m + t.nTried && ids == order[n..] && forall id :: id in ids ==> id in t.info
    ensures LoadTried(h, After(h, t, order, n), n - m, 0, Records(t.info, ids) + rest)
         == LoadTried(h, After(h, t, order, n + 1), n + 1 - m, 0, Records(t.info, ids[1..]) + rest)
  {
    assert After(h, t, order, n).nTried == t.nTried;
    hide AddrOk, TriedOk, After, TriedLoaded, Lost, IsOrder, Records;
    RecordsCons(t.info, ids, rest);
    TriedStep(h, t, order, m, n);
  }

  // ---------- the buckets ----------

  ghost function Image(order: seq<nat>, ids: set<nat>): set<nat> {
    set k: nat | k < |order| && order[k] in ids
  }

  ghost function FilledInfo(t: Tables, order: seq<nat>, b: nat, done: set<nat>): map<nat, Info>
    requires b <= |t.news| && forall k :: 0 <= k < |order| ==> order[k] in t.info
  {
    map k: nat | k < |order| :: Reloaded(t.info[order[k]], k).(nRefCount := Seen(t.news, b, done, order[k]))
  }

  ghost function FilledNews(t: Tables, order: seq<nat>, b: nat, done: set<nat>): seq<set<nat>>
    requires b <= |t.news|
  {
    seq(|t.news|, c requires 0 <= c < |t.news| =>
      if c < b then Image(order, t.news[c]) else if c == b then Image(order, done) else {})
  }

  /** After all entries, b buckets, and the references in `done` of the next bucket. */
  ghost function Filled(h: Hashes, t: Tables, order: seq<nat>, b: nat, done: set<nat>): Tables
    requires b <= |t.news| && forall k :: 0 <= k < |order| ==> order[k] in t.info
  {
    After(h, t, order, |order|).(info := FilledInfo(t, order, b, done), news := FilledNews(t, order, b, done))
  }

  lemma FilledFirst(h: Hashes, t: Tables, order: seq<nat>)
    requires |t.news| == NEW_BUCKET_COUNT && forall k :: 0 <= k < |order| ==> order[k] in t.info
    ensures Filled(h, t, order, 0, {}) == After(h, t, order, |order|)
  {
    assert forall id :: Holders(t.news[..0], id) == {};
    assert FilledInfo(t, order, 0, {}) == ReloadedInfo(t.info, order, |order|);
    assert Image(order, {}) == {};
    assert FilledNews(t, order, 0, {}) == seq(NEW_BUCKET_COUNT, _ => {});
    hide ReloadedInfo, FilledInfo, FilledNews;
  }

  lemma FilledNext(h: Hashes, t: Tables, order: seq<nat>, b: nat)
    requires b < |t.news| && forall k :: 0 <= k < |order| ==> order[k] in t.info
    ensures Filled(h, t, order, b, t.news[b]) == Filled(h, t, order, b + 1, {})
  {
    forall k | 0 <= k < |order| ensures Seen(t.news, b, t.news[b], order[k]) == Seen(t.news, b + 1, {}, order[k]) {
      SeenMore(t.news, b, order[k]);
    }
    assert FilledInfo(t, order, b, t.news[b]) == FilledInfo(t, order, b + 1, {});
    assert Image(order, {}) == {};
    assert FilledNews(t, order, b, t.news[b]) == FilledNews(t, order, b + 1, {});
    hide FilledInfo, FilledNews;
  }

  lemma FilledInfoStep(t: Tables, order: seq<nat>, m: nat, b: nat, done: set<nat>, k: nat)
    requires NewOk(t.info, t.news, {}) && IsOrder(t.info, order, m) && b < |t.news|
    requires k < |order| && order[k] in t.news[b] && order[k] !in done
    ensures var info := FilledInfo(t, order, b, done);
            && k in info && info[k].nRefCount < NEW_BUCKETS_PER_ADDRESS
            && FilledInfo(t, order, b, done + {order[k]}) == info[k := info[k].(nRefCount := info[k].nRefCount + 1)]
  {
    hide NewOk, Seen, IsOrder, Reloaded, FilledInfo;
    InOrder(t.info, order, m);
    SeenBelow(t, b, done, order[k]);
    SeenStep(t, order, m, b, done, k);
    FilledInfoMore(t, order, b, done, k);
  }

  lemma SeenBelow(t: Tables, b: nat, done: set<nat>, id: nat)
    requires NewOk(t.info, t.news, {}) && b < |t.news| && id in t.news[b] && id !in done
    ensures Seen(t.news, b, done, id) < NEW_BUCKETS_PER_ADDRESS
  {
    SeenMore(t.news, b, id);
    assert RefsOk(t.news, id, t.info[id]);
    hide NewOk;
  }

  lemma FilledInfoMore(t: Tables, order: seq<nat>, b: nat, done: set<nat>, k: nat)
    requires b < |t.news| && k < |order| && forall j :: 0 <= j < |order| ==> order[j] in t.info
    requires forall j: nat :: j < |order| ==>
               Seen(t.news, b, done + {order[k]}, order[j]) == Seen(t.news, b, done, order[j]) + if j == k then 1 else 0
    ensures var info := FilledInfo(t, order, b, done);
            && k in info && info[k].nRefCount == Seen(t.news, b, done, order[k])
            && FilledInfo(t, order, b, done + {order[k]}) == info[k := info[k].(nRefCount := info[k].nRefCount + 1)]
  {
    hide Seen, Reloaded;
  }

  lemma SeenStep(t: Tables, order: seq<nat>, m: nat, b: nat, done: set<nat>, k: nat)
    requires IsOrder(t.info, order, m) && b < |t.news| && k < |order| && order[k] !in done
    ensures forall j: nat :: j < |order| ==>
              Seen(t.news, b, done + {order[k]}, order[j]) == Seen(t.news, b, done, order[j]) + if j == k then 1 else 0
  {
    hide Holders;
    forall j: nat | j < |order|
      ensures Seen(t.news, b, done + {order[k]}, order[j]) == Seen(t.news, b, done, order[j]) + if j == k then 1 else 0
    {
      assert j != k ==> order[j] != order[k];
    }
  }

  lemma FilledNewsStep(t: Tables, order: seq<nat>, m: nat, b: nat, done: set<nat>, k: nat)
    requires IsOrder(t.info, order, m) && b < |t.news| && k < |order|
    ensures var news := FilledNews(t, order, b, done);
            FilledNews(t, order, b, done + {order[k]}) == news[b := news[b] + {k}]
  {
    assert Image(order, done + {order[k]}) == Image(order, done) + {k};
  }

  lemma IndexStep(h: Hashes, t: Tables, order: seq<nat>, m: nat, b: nat, done: set<nat>, k: nat)
    requires NewOk(t.info, t.news, {}) && IsOrder(t.info, order, m) && b < |t.news|
    requires k < |order| && order[k] in t.news[b] && order[k] !in done
    ensures IndexLoaded(Filled(h, t, order, b, done), b, k, NEW_BUCKET_COUNT)
            == Filled(h, t, order, b, done + {order[k]})
  {
    FilledInfoStep(t, order, m, b, done, k);
    FilledNewsStep(t, order, m, b, done, k);
    hide FilledInfo, NewOk, IsOrder;
  }

  lemma IndicesCons(order: seq<nat>, ids: seq<nat>, rest: seq<Item>)
    requires ids != [] && forall id :: id in ids ==> id in order
    ensures var s := Indices(order, ids) + rest;
            s != [] && s[0] == Number(Rank(order, ids[0])) && s[1..] == Indices(order, ids[1..]) + rest
  {
  }

  lemma {:induction false} BucketRun(h: Hashes, t: Tables, order: seq<nat>, m: nat, b: nat, done: set<nat>, n: nat,
                                     ids: seq<nat>, rest: seq<Item>)
    requires NewOk(t.info, t.news, {}) && IsOrder(t.info, order, m) && b < |t.news|
    requires Distinct(ids) && forall id :: id in ids ==> id in t.news[b] && id !in done
    requires forall id :: id in ids ==> id in order[..m]
    ensures LoadBucket(Filled(h, t, order, b, done), b, n, n + |ids|, NEW_BUCKET_COUNT, Indices(order[..m], ids) + rest)
         == Some(Loading(Filled(h, t, order, b, done + SetOf(ids)), rest))
    decreases |ids|
  {
    hide *;
    if ids == [] {
      BucketDone(h, t, order, m, b, done, n, ids, rest);
    } else {
      BucketStep(h, t, order, m, b, done, ids, rest);
      BucketUnfold(h, t, order, m, b, done, n, ids, rest);
      BucketRun(h, t, order, m, b, done + {ids[0]}, n + 1, ids[1..], rest);
    }
  }

  lemma BucketUnfold(h: Hashes, t: Tables, order: seq<nat>, m: nat, b: nat, done: set<nat>, n: nat, ids: seq<nat>,
                     rest: seq<Item>)
    requires NewOk(t.info, t.news, {}) && IsOrder(t.info, order, m) && b < |t.news| && ids != []
    requires Distinct(ids) && forall id :: id in ids ==> id in t.news[b] && id !in done && id in order[..m]
    ensures LoadBucket(Filled(h, t, order, b, done), b, n, n + |ids|, NEW_BUCKET_COUNT, Indices(order[..m], ids) + rest)
         == LoadBucket(Filled(h, t, order, b, done + {ids[0]}), b, n + 1, n + |ids|, NEW_BUCKET_COUNT,
                       Indices(order[..m], ids[1..]) + rest)
  {
    hide Filled, IsOrder, Indices, IndexLoaded;
    BucketStep(h, t, order, m, b, done, ids, rest);
    hide NewOk, SetOf, Distinct;
  }

  lemma BucketDone(h: Hashes, t: Tables, order: seq<nat>, m: nat, b: nat, done: set<nat>, n: nat, ids: seq<nat>,
                   rest: seq<Item>)
    requires NewOk(t.info, t.news, {}) && IsOrder(t.info, order, m) && b < |t.news| && ids == []
    ensures LoadBucket(Filled(h, t, order, b, done), b, n, n + |ids|, NEW_BUCKET_COUNT, Indices(order[..m], ids) + rest)
         == Some(Loading(Filled(h, t, order, b, done + SetOf(ids)), rest))
  {
    assert m <= |order|;
    hide Filled, IsOrder;
    assert Indices(order[..m], ids) + rest == rest;
    assert done + SetOf(ids) == done;
  }

  lemma BucketStep(h: Hashes, t: Tables, order: seq<nat>, m: nat, b: nat, done: set<nat>, ids: seq<nat>,
                   rest: seq<Item>)
    requires NewOk(t.info, t.news, {}) && IsOrder(t.info, order, m) && b < |t.news| && ids != []
    requires Distinct(ids) && forall id :: id in ids ==> id in t.news[b] && id !in done && id in order[..m]
    ensures var s := Indices(order[..m], ids) + rest;
            && s != [] && s[0].Number? && s[0].n >= 0 && s[1..] == Indices(order[..m], ids[1..]) + rest
            && IndexLoaded(Filled(h, t, order, b, done), b, s[0].n, NEW_BUCKET_COUNT)
               == Filled(h, t, order, b, done + {ids[0]})
    ensures done + {ids[0]} + SetOf(ids[1..]) == done + SetOf(ids)
    ensures Distinct(ids[1..]) && ids[0] !in ids[1..]
  {
    var k := Rank(order[..m], ids[0]);
    assert order[k] == ids[0];
    SetOfCons(done, ids);
    hide *;
    IndicesCons(order[..m], ids, rest);
    IndexStep(h, t, order, m, b, done, k);
  }

  lemma SetOfCons(done: set<nat>, ids: seq<nat>)
    requires Distinct(ids) && ids != []
    ensures done + {ids[0]} + SetOf(ids[1..]) == done + SetOf(ids)
    ensures Distinct(ids[1..]) && ids[0] !in ids[1..]
  {
  }

  lemma BucketsStep(h: Hashes, t: Tables, order: seq<nat>, m: nat, b: nat, rest: seq<Item>)
    requires NewOk(t.info, t.news, {}) && IsOrder(t.info, order, m) && b < |t.news|
    requires forall c, id :: 0 <= c < |t.news| && id in t.news[c] ==> id in order[..m]
    ensures LoadBuckets(Filled(h, t, order, b, {}), b, NEW_BUCKET_COUNT, SavedBuckets(t.news[b..], order[..m]) + rest)
         == LoadBuckets(Filled(h, t, order, b + 1, {}), b + 1, NEW_BUCKET_COUNT,
                        SavedBuckets(t.news[b + 1..], order[..m]) + rest)
  {
    InOrder(t.info, order, m);
    NewCount(t);
    hide Filled, SavedBuckets, IsOrder, Indices, NewOk, SetOf, Distinct, Sorted;
    var more := SavedBuckets(t.news[b + 1..], order[..m]) + rest;
    SortedWhole(t.news[b]);
    BucketRun(h, t, order, m, b, {}, 0, Sorted(t.news[b]), more);
    SavedBucketsCons(t.news, b, order[..m], rest);
    FilledNext(h, t, order, b);
  }

  lemma NewCount(t: Tables)
    requires NewOk(t.info, t.news, {})
    ensures |t.news| == NEW_BUCKET_COUNT
  {
    hide RefsOk;
  }

  lemma SortedWhole(s: set<nat>)
    ensures {} + SetOf(Sorted(s)) == s && Distinct(Sorted(s)) && |Sorted(s)| == |s|
    ensures forall id :: id in Sorted(s) <==> id in s
  {
    SortedIs(s);
    hide Sorted, Distinct;
  }

  lemma {:induction false} BucketsRun(h: Hashes, t: Tables, order: seq<nat>, m: nat, b: nat, rest: seq<Item>)
    requires NewOk(t.info, t.news, {}) && IsOrder(t.info, order, m) && b <= |t.news|
    requires forall c, id :: 0 <= c < |t.news| && id in t.news[c] ==> id in order[..m]
    ensures LoadBuckets(Filled(h, t, order, b, {}), b, NEW_BUCKET_COUNT, SavedBuckets(t.news[b..], order[..m]) + rest)
         == Some(Loading(Filled(h, t, order, |t.news|, {}), rest))
    decreases |t.news| - b
  {
    assert |t.news| == NEW_BUCKET_COUNT && m <= |order| && forall k :: 0 <= k < |order| ==> order[k] in t.info;
    hide *;
    if b == |t.news| {
      BucketsDone(h, t, order, m, rest);
    } else {
      BucketsStep(h, t, order, m, b, rest);
      BucketsRun(h, t, order, m, b + 1, rest);
    }
  }

  lemma BucketsDone(h: Hashes, t: Tables, order: seq<nat>, m: nat, rest: seq<Item>)
    requires |t.news| == NEW_BUCKET_COUNT && m <= |order| && forall k :: 0 <= k < |order| ==> order[k] in t.info
    requires forall c, id :: 0 <= c < |t.news| && id in t.news[c] ==> id in order[..m]
    ensures LoadBuckets(Filled(h, t, order, |t.news|, {}), |t.news|, NEW_BUCKET_COUNT,
                        SavedBuckets(t.news[|t.news|..], order[..m]) + rest)
         == Some(Loading(Filled(h, t, order, |t.news|, {}), rest))
  {
    hide Filled;
    assert SavedBuckets(t.news[|t.news|..], order[..m]) + rest == rest;
  }

  lemma SavedBucketsCons(news: seq<set<nat>>, b: nat, order: seq<nat>, rest: seq<Item>)
    requires b < |news| && forall c, id :: 0 <= c < |news| && id in news[c] ==> id in order
    ensures forall id :: id in Sorted(news[b]) ==> id in order
    ensures var s := SavedBuckets(news[b..], order) + rest;
            && s != [] && s[0] == Number(|news[b]|)
            && s[1..] == Indices(order, Sorted(news[b])) + (SavedBuckets(news[b + 1..], order) + rest)
  {
    hide SavedBuckets, Indices, Sorted;
    assert news[b..][1..] == news[b + 1..];
    SavedBucketsOne(news[b..], order);
    HeadTailRest([Number(|news[b]|)], Indices(order, Sorted(news[b])), SavedBuckets(news[b + 1..], order), rest);
  }

  lemma HeadTailRest(head: seq<Item>, a: seq<Item>, b: seq<Item>, rest: seq<Item>)
    requires |head| == 1
    ensures var s := head + a + b + rest; s[0] == head[0] && s[1..] == a + (b + rest)
  {
  }

  lemma SavedBucketsOne(news: seq<set<nat>>, order: seq<nat>)
    requires news != [] && forall c, id :: 0 <= c < |news| && id in news[c] ==> id in order
    ensures forall id :: id in Sorted(news[0]) ==> id in order
    ensures SavedBuckets(news, order)
            == [Number(|news[0]|)] + Indices(order, Sorted(news[0])) + SavedBuckets(news[1..], order)
  {
    SortedIs(news[0]);
  }

  // ---------- the round trip ----------

  /** The tables as read back. */
  ghost function Renumbered(h: Hashes, t: Tables): Tables
    requires Inv(h, t)
  {
    OrderIs(t);
    Filled(h, t, Order(t), |t.news|, {})
  }

  lemma SavedParts(t: Tables, rest: seq<Item>)
    requires Savable(t)
    ensures forall id :: id in NewIds(t) || id in TriedIds(t) ==> id in t.info
    ensures forall b, id :: 0 <= b < |t.news| && id in t.news[b] ==> id in NewIds(t)
    ensures var s := Saved(t) + rest;
            && |s| >= 5 && s[0] == Number(0) && s[1] == KeyBytes(t.nKey)
            && s[2] == Number(t.nNew) && s[3] == Number(t.nTried)
            && s[4] == Number(NEW_BUCKET_COUNT)
            && s[5..] == Records(t.info, NewIds(t))
                         + (Records(t.info, TriedIds(t)) + (SavedBuckets(t.news, NewIds(t)) + rest))
  {
    SortedIs(Ids(t.info, false));
    SortedIs(Ids(t.info, true));
    hide Records, SavedBuckets, Sorted, SetOf, Distinct;
    var a, b, c := Records(t.info, NewIds(t)), Records(t.info, TriedIds(t)), SavedBuckets(t.news, NewIds(t));
    var head := [Number(0), KeyBytes(t.nKey), Number(t.nNew), Number(t.nTried), Number(NEW_BUCKET_COUNT)];
    assert Saved(t) + rest == head + (a + (b + (c + rest)));
  }

  /** The second loop starts where the first has ended. */
  lemma LoadEntriesIs(h: Hashes, key: nat, nNew: int, nTried: int, nUBuckets: int, s: seq<Item>, l: Loading)
    requires LoadNew(h, Fresh(key, nNew, nTried), 0, nUBuckets, s) == Some(l)
    ensures Sized(l.t)
    ensures LoadEntries(h, key, nNew, nTried, nUBuckets, s)
            == LoadTried(h, l.t.(nIdCount := if nNew > 0 then nNew else 0), 0, 0, l.rest)
  {
    hide LoadNew, LoadTried, Fresh;
  }

  lemma NewStart(h: Hashes, t: Tables, order: seq<nat>, m: nat)
    requires m <= |order| && m == t.nNew && forall k :: 0 <= k < |order| ==> order[k] in t.info
    ensures After(h, t, order, 0).(nIdCount := 0) == Fresh(t.nKey, t.nNew, t.nTried)
    ensures After(h, t, order, m).(nIdCount := 0).(nIdCount := if t.nNew > 0 then t.nNew else 0)
            == After(h, t, order, m)
    ensures Sized(After(h, t, order, m))
  {
    AfterNone(h, t, order);
    hide ReloadedTried, ReloadedInfo, ReloadedAddr;
    assert Empty(t.nKey).nIdCount == 0;
  }

  lemma EntriesRun(h: Hashes, t: Tables, order: seq<nat>, m: nat, news: seq<nat>, trieds: seq<nat>, rest: seq<Item>)
    requires AddrOk(t.info, t.addr) && TriedOk(h, t.nKey, t.info, t.tried) && IsOrder(t.info, order, m)
    requires |t.news| == NEW_BUCKET_COUNT
    requires m == t.nNew && m <= |order| == m + t.nTried && news == order[0..m] && trieds == order[m..]
    requires forall k :: 0 <= k < |order| ==> order[k] in t.info
    requires forall id :: id in news || id in trieds ==> id in t.info
    ensures LoadEntries(h, t.nKey, t.nNew, t.nTried, NEW_BUCKET_COUNT,
                        Records(t.info, news) + (Records(t.info, trieds) + rest))
         == Some(Loading(Filled(h, t, order, 0, {}), rest))
  {
    hide *;
    var s1 := Records(t.info, trieds) + rest;
    var s := Records(t.info, news) + s1;
    NewStart(h, t, order, m);
    NewRun(h, t, order, m, 0, news, s1);
    var l := Loading(After(h, t, order, m).(nIdCount := 0), s1);
    LoadEntriesIs(h, t.nKey, t.nNew, t.nTried, NEW_BUCKET_COUNT, s, l);
    TriedRun(h, t, order, m, m, trieds, rest);
    FilledFirst(h, t, order);
  }

  lemma AfterNone(h: Hashes, t: Tables, order: seq<nat>)
    requires forall k :: 0 <= k < |order| ==> order[k] in t.info
    ensures After(h, t, order, 0) == Fresh(t.nKey, t.nNew, t.nTried)
  {
    assert ReloadedTried(h, t, order, 0) == seq(TRIED_BUCKET_COUNT, _ => []);
    assert ReloadedInfo(t.info, order, 0) == map[];
    assert ReloadedAddr(t.info, order, t.addr, 0) == map[];
  }

  /** The order and what lies in it, from the invariant. */
  lemma OrderFacts(h: Hashes, t: Tables)
    requires Inv(h, t)
    ensures AddrOk(t.info, t.addr) && TriedOk(h, t.nKey, t.info, t.tried) && NewOk(t.info, t.news, {})
    ensures |t.news| == NEW_BUCKET_COUNT
    ensures 0 <= t.nNew <= |Order(t)| == t.nNew + t.nTried
    ensures IsOrder(t.info, Order(t), t.nNew) && forall k :: 0 <= k < |Order(t)| ==> Order(t)[k] in t.info
    ensures Order(t)[..t.nNew] == Order(t)[0..t.nNew] == NewIds(t) && Order(t)[t.nNew..] == TriedIds(t)
    ensures Savable(t)
  {
    hide *;
    InvParts(h, t);
    OrderIs(t);
    OrderHalves(t);
    InOrder(t.info, Order(t), t.nNew);
    SavableIs(t);
  }

  lemma InvParts(h: Hashes, t: Tables)
    requires Inv(h, t)
    ensures AddrOk(t.info, t.addr) && TriedOk(h, t.nKey, t.info, t.tried) && NewOk(t.info, t.news, {}) && CountsOk(t)
    ensures |t.news| == NEW_BUCKET_COUNT
  {
    hide RandomOk, AddrOk, TriedOk, RefsOk, CountsOk;
  }

  lemma OrderHalves(t: Tables)
    ensures |Order(t)| == |NewIds(t)| + |TriedIds(t)|
    ensures Order(t)[..|NewIds(t)|] == Order(t)[0..|NewIds(t)|] == NewIds(t) && Order(t)[|NewIds(t)|..] == TriedIds(t)
  {
    hide NewIds, TriedIds;
  }

  lemma InOrder(info: map<nat, Info>, order: seq<nat>, m: nat)
    requires IsOrder(info, order, m)
    ensures m <= |order| && forall k :: 0 <= k < |order| ==> order[k] in info
  {
    hide Distinct;
  }

  lemma SavableIs(t: Tables)
    requires NewOk(t.info, t.news, {})
    ensures Savable(t)
  {
    hide RefsOk;
  }

  /** Reading back what was written gives the renumbered tables, and reads nothing more. */
  lemma SaveLoad(h: Hashes, t: Tables, rest: seq<Item>)
    requires Inv(h, t)
    ensures Savable(t) && Load(h, Saved(t) + rest) == Some(Loading(Renumbered(h, t), rest))
  {
    OrderFacts(h, t);
    assert t.news[0..] == t.news;
    SavedParts(t, rest);
    hide AddrOk, TriedOk, NewOk, CountsOk, RandomOk, Savable, Inv, IsOrder, Filled, Records, LoadEntries, LoadBuckets;
    hide Saved, SavedBuckets, Order, NewIds, TriedIds;
    var order := Order(t);
    EntriesRun(h, t, order, t.nNew, NewIds(t), TriedIds(t), SavedBuckets(t.news, NewIds(t)) + rest);
    BucketsRun(h, t, order, t.nNew, 0, rest);
  }

  // ---------- what the renumbered tables are ----------

  /** The same entries under other numbers; the time of the last try is not stored. */
  ghost predicate SameInfo(info: map<nat, Info>, info': map<nat, Info>, order: seq<nat>) {
    && (forall k: nat :: k in info' <==> k < |order|)
    && forall k: nat :: k < |order| ==> order[k] in info && info'[k] == info[order[k]].(nLastTry := 0, nRandomPos := k)
  }

  ghost predicate SameAddr(addr: map<nat, nat>, addr': map<nat, nat>, order: seq<nat>) {
    && (forall ip :: ip in addr' <==> ip in addr)
    && forall ip :: ip in addr ==> addr'[ip] < |order| && order[addr'[ip]] == addr[ip]
  }

  /** The same members under other numbers. */
  ghost predicate SameBucket(ids: set<nat>, ids': set<nat>, order: seq<nat>) {
    ids' == Image(order, ids)
  }

  ghost predicate SameTried(tried: seq<seq<nat>>, tried': seq<seq<nat>>, order: seq<nat>) {
    |tried'| == |tried| && forall b :: 0 <= b < |tried| ==> SameBucket(SetOf(tried[b]), SetOf(tried'[b]), order)
  }

  ghost predicate SameNews(news: seq<set<nat>>, news': seq<set<nat>>, order: seq<nat>) {
    |news'| == |news| && forall b :: 0 <= b < |news| ==> SameBucket(news[b], news'[b], order)
  }

  /** The same tables but for the numbering of the entries, their order in the lists, and the
      time of the last try. */
  ghost predicate SameBut(t: Tables, t': Tables, order: seq<nat>) {
    && t'.nKey == t.nKey && t'.nNew == t.nNew && t'.nTried == t.nTried
    && SameInfo(t.info, t'.info, order) && SameAddr(t.addr, t'.addr, order)
    && SameTried(t.tried, t'.tried, order) && SameNews(t.news, t'.news, order)
  }

  lemma InfoSame(t: Tables, order: seq<nat>, m: nat)
    requires NewOk(t.info, t.news, {}) && IsOrder(t.info, order, m)
    ensures SameInfo(t.info, FilledInfo(t, order, |t.news|, {}), order)
  {
    hide NewOk, RefsOk, Seen;
    forall k: nat | k < |order| ensures Seen(t.news, |t.news|, {}, order[k]) == t.info[order[k]].nRefCount {
      SeenAll(t, order[k]);
    }
  }

  lemma SeenAll(t: Tables, id: nat)
    requires NewOk(t.info, t.news, {}) && id in t.info
    ensures Seen(t.news, |t.news|, {}, id) == t.info[id].nRefCount
  {
    assert t.news[..|t.news|] == t.news;
    assert RefsOk(t.news, id, t.info[id]);
    hide NewOk;
    if t.info[id].fInTried { assert Holders(t.news, id) == {}; }
  }

  lemma AddrSame(info: map<nat, Info>, addr: map<nat, nat>, order: seq<nat>, m: nat)
    requires AddrOk(info, addr) && IsOrder(info, order, m)
    ensures SameAddr(addr, ReloadedAddr(info, order, addr, |order|), order)
  {
  }

  lemma TriedBucketSame(h: Hashes, t: Tables, order: seq<nat>, m: nat, b: nat)
    requires TriedOk(h, t.nKey, t.info, t.tried) && IsOrder(t.info, order, m) && b < |t.tried|
    ensures |TriedUpto(h, t, order, |order|, b)| <= TRIED_BUCKET_SIZE && Distinct(TriedUpto(h, t, order, |order|, b))
    ensures SameBucket(SetOf(t.tried[b]), SetOf(TriedUpto(h, t, order, |order|, b)), order)
  {
    TriedUptoIs(h, t, order, m, |order|, b);
    TriedUptoRoom(h, t, order, m, |order|, b);
    hide TriedUpto;
  }

  lemma TriedSame(h: Hashes, t: Tables, order: seq<nat>, m: nat)
    requires TriedOk(h, t.nKey, t.info, t.tried) && IsOrder(t.info, order, m)
    ensures SameTried(t.tried, ReloadedTried(h, t, order, |order|), order)
    ensures forall b :: 0 <= b < |t.tried| ==>
      |ReloadedTried(h, t, order, |order|)[b]| <= TRIED_BUCKET_SIZE && Distinct(ReloadedTried(h, t, order, |order|)[b])
  {
    forall b | 0 <= b < |t.tried|
      ensures |TriedUpto(h, t, order, |order|, b)| <= TRIED_BUCKET_SIZE && Distinct(TriedUpto(h, t, order, |order|, b))
      ensures SameBucket(SetOf(t.tried[b]), SetOf(TriedUpto(h, t, order, |order|, b)), order)
    {
      TriedBucketSame(h, t, order, m, b);
    }
    hide TriedUpto, Distinct, SameBucket;
  }

  lemma {:induction false} ImageCard(order: seq<nat>, ids: set<nat>)
    requires Distinct(order)
    ensures |Image(order, ids)| <= |ids|
    decreases |ids|
  {
    if Image(order, ids) != {} {
      var k :| k in Image(order, ids);
      assert Image(order, ids - {order[k]}) == Image(order, ids) - {k};
      ImageCard(order, ids - {order[k]});
    }
  }

  lemma NewsSame(t: Tables, order: seq<nat>, m: nat)
    requires NewOk(t.info, t.news, {}) && IsOrder(t.info, order, m)
    ensures SameNews(t.news, FilledNews(t, order, |t.news|, {}), order)
    ensures forall b :: 0 <= b < |t.news| ==> |FilledNews(t, order, |t.news|, {})[b]| <= NEW_BUCKET_SIZE
  {
    forall b | 0 <= b < |t.news| ensures |Image(order, t.news[b])| <= NEW_BUCKET_SIZE { ImageCard(order, t.news[b]); }
  }

  lemma RenumberedSame(h: Hashes, t: Tables)
    requires Inv(h, t)
    ensures SameBut(t, Renumbered(h, t), Order(t)) && IsOrder(t.info, Order(t), |NewIds(t)|) && |NewIds(t)| == t.nNew
    ensures Renumbered(h, t).random == Upto(|Order(t)|) && Renumbered(h, t).nIdCount == |Order(t)|
    ensures forall b :: 0 <= b < |t.news| ==> |Renumbered(h, t).news[b]| <= NEW_BUCKET_SIZE
    ensures forall b :: 0 <= b < |t.tried| ==>
              |Renumbered(h, t).tried[b]| <= TRIED_BUCKET_SIZE && Distinct(Renumbered(h, t).tried[b])
  {
    OrderIs(t);
    var order, m := Order(t), |NewIds(t)|;
    assert forall k :: 0 <= k < |order| ==> order[k] in t.info;
    hide RandomOk, AddrOk, TriedOk, NewOk, CountsOk, IsOrder, FilledInfo, FilledNews, NewIds, TriedIds, Order, Distinct,
         ReloadedInfo, ReloadedAddr, ReloadedTried, SameInfo, SameAddr;
    InfoSame(t, order, m);
    AddrSame(t.info, t.addr, order, m);
    TriedSame(h, t, order, m);
    NewsSame(t, order, m);
  }

  // ---------- and that they are in order ----------

  lemma {:induction false} RangeCard(s: set<nat>, lo: nat, hi: nat)
    requires lo <= hi && forall k: nat :: k in s <==> lo <= k < hi
    ensures |s| == hi - lo
    decreases hi - lo
  {
    if lo == hi {
      assert s == {};
    } else {
      RangeCard(s - {lo}, lo + 1, hi);
    }
  }

  lemma SameRandomOk(info: map<nat, Info>, info': map<nat, Info>, order: seq<nat>, m: nat)
    requires SameInfo(info, info', order) && IsOrder(info, order, m)
    ensures RandomOk(info', Upto(|order|)) && |Ids(info', false)| == m && |Ids(info', true)| == |order| - m
  {
    RangeCard(Ids(info', false), 0, m);
    RangeCard(Ids(info', true), m, |order|);
  }

  lemma SameAddrOk(info: map<nat, Info>, info': map<nat, Info>, addr: map<nat, nat>, addr': map<nat, nat>,
                   order: seq<nat>, m: nat)
    requires AddrOk(info, addr) && SameInfo(info, info', order) && SameAddr(addr, addr', order)
    requires IsOrder(info, order, m)
    ensures AddrOk(info', addr')
  {
    forall k | k in info' ensures info'[k].addr.ip in addr' && addr'[info'[k].addr.ip] == k {
      var j := addr'[info'[k].addr.ip];
      assert order[j] == order[k];
      assert !(j < k) && !(k < j);
    }
  }

  lemma SameTriedOk(h: Hashes, key: nat, info: map<nat, Info>, info': map<nat, Info>, tried: seq<seq<nat>>,
                    tried': seq<seq<nat>>, order: seq<nat>)
    requires TriedOk(h, key, info, tried) && SameInfo(info, info', order) && SameTried(tried, tried', order)
    requires forall b :: 0 <= b < |tried| ==> |tried'[b]| <= TRIED_BUCKET_SIZE && Distinct(tried'[b])
    ensures TriedOk(h, key, info', tried')
  {
    hide Distinct;
    forall b, k: nat | 0 <= b < |tried'| && k in tried'[b]
      ensures k in info' && info'[k].fInTried && h.TriedBucket(key, info'[k].addr) == b
    {
      assert SameBucket(SetOf(tried[b]), SetOf(tried'[b]), order) && k in SetOf(tried'[b]);
      assert k < |order| && order[k] in SetOf(tried[b]);
    }
    forall k | k in info' && info'[k].fInTried ensures k in tried'[h.TriedBucket(key, info'[k].addr)] {
      var b := h.TriedBucket(key, info[order[k]].addr);
      assert SameBucket(SetOf(tried[b]), SetOf(tried'[b]), order) && order[k] in SetOf(tried[b]);
      assert k in SetOf(tried'[b]);
    }
  }

  lemma SameNewOk(info: map<nat, Info>, info': map<nat, Info>, news: seq<set<nat>>, news': seq<set<nat>>,
                  order: seq<nat>)
    requires NewOk(info, news, {}) && SameInfo(info, info', order) && SameNews(news, news', order)
    requires forall b :: 0 <= b < |news| ==> |news'[b]| <= NEW_BUCKET_SIZE
    ensures NewOk(info', news', {})
  {
    forall b, k: nat | 0 <= b < |news'| && k in news'[b] ensures k in info' && !info'[k].fInTried {
      assert SameBucket(news[b], news'[b], order);
    }
    forall k | k in info' ensures RefsOk(news', k, info'[k]) {
      assert RefsOk(news, order[k], info[order[k]]);
      SameHolders(news, news', order, k);
    }
  }

  lemma SameHolders(news: seq<set<nat>>, news': seq<set<nat>>, order: seq<nat>, k: nat)
    requires SameNews(news, news', order) && k < |order|
    ensures Holders(news', k) == Holders(news, order[k])
  {
    forall b | 0 <= b < |news| ensures k in news'[b] <==> order[k] in news[b] {
      assert SameBucket(news[b], news'[b], order);
    }
  }

  lemma RenumberedInv(h: Hashes, t: Tables)
    requires Inv(h, t)
    ensures Inv(h, Renumbered(h, t))
  {
    RenumberedSame(h, t);
    OrderIs(t);
    var t', order, m := Renumbered(h, t), Order(t), |NewIds(t)|;
    assert IdsOk(t');
    hide RandomOk, AddrOk, TriedOk, NewOk, IsOrder, Renumbered, Order, SameInfo, SameAddr, SameTried, SameNews;
    hide Distinct;
    SameRandomOk(t.info, t'.info, order, m);
    SameAddrOk(t.info, t'.info, t.addr, t'.addr, order, m);
    SameTriedOk(h, t.nKey, t.info, t'.info, t.tried, t'.tried, order);
    SameNewOk(t.info, t'.info, t.news, t'.news, order);
    assert |order| == t.nNew + t.nTried;
  }

  lemma SameTimesOk(t: Tables, t': Tables, order: seq<nat>)
    requires SameBut(t, t', order)
    ensures TimesOk(t) ==> TimesOk(t')
  {
  }

  /** Whatever the tables, what is read back is in order again, and is the same but for the
      numbering: every tried entry finds room, and every membership of a new bucket is
      restored. */
  lemma RoundTrip(h: Hashes, t: Tables, rest: seq<Item>)
    requires Inv(h, t)
    ensures Savable(t) && Load(h, Saved(t) + rest).Some? && Load(h, Saved(t) + rest).value.rest == rest
    ensures var t' := Load(h, Saved(t) + rest).value.t;
            Inv(h, t') && SameBut(t, t', Order(t)) && IsOrder(t.info, Order(t), |NewIds(t)|)
    ensures TimesOk(t) ==> TimesOk(Load(h, Saved(t) + rest).value.t)
  {
    SaveLoad(h, t, rest);
    RenumberedSame(h, t);
    RenumberedInv(h, t);
    SameTimesOk(t, Renumbered(h, t), Order(t));
    hide *;
  }
}
