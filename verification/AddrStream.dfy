/** What the address manager writes to disk, and what reading it back does. */
module AddrStream {
  import opened Basics
  import opened Options
  import opened AddrTables
  import opened AddrOps

  /** The part of an entry that is stored. */
  datatype Record = Record(addr: Service, nServices: bv64, nTime: int, source: nat, nLastSuccess: int, nAttempts: int)

  /** A stream of typed fields. */
  datatype Item = Number(n: int) | KeyBytes(key: nat) | Entry(r: Record)

  function RecordOf(e: Info): Record { Record(e.addr, e.nServices, e.nTime, e.source, e.nLastSuccess, e.nAttempts) }

  function InfoOf(r: Record): Info {
    Info(r.addr, r.nServices, r.nTime, 0, r.source, r.nLastSuccess, r.nAttempts, 0, false, -1)
  }

  /** An entry as its constructor makes it. */
  const BLANK := Info(Service(0, 0), 1, 100000000, 0, 0, 0, 0, 0, false, -1)

  // ---------- ids in order ----------

  ghost function LeastOf(s: set<nat>): (m: nat)
    requires s != {}
    ensures m in s && forall x :: x in s ==> m <= x
  {
    var y :| y in s;
    assert forall x :: x in s ==> x == y || x in s - {y};
    if s - {y} == {} then y else
      var m := LeastOf(s - {y});
      if m < y then m else y
  }

  /** The members of a set as an iteration over it meets them. */
  ghost function Sorted(s: set<nat>): seq<nat>
  {
    if s == {} then [] else [LeastOf(s)] + Sorted(s - {LeastOf(s)})
  }

  lemma {:induction false} SortedIs(s: set<nat>)
    ensures |Sorted(s)| == |s| && Distinct(Sorted(s)) && SetOf(Sorted(s)) == s
    ensures forall x :: x in Sorted(s) <==> x in s
  {
    if s != {} {
      var m := LeastOf(s);
      SortedIs(s - {m});
      var rest := Sorted(s - {m});
      assert SetOf([m] + rest) == {m} + SetOf(rest);
      assert forall i :: 0 < i < |Sorted(s)| ==> Sorted(s)[i] == rest[i - 1];
    }
  }

  function Rank(order: seq<nat>, id: nat): (k: nat)
    requires id in order
    ensures k < |order| && order[k] == id
  {
    if order[0] == id then 0 else 1 + Rank(order[1..], id)
  }

  // ---------- writing ----------

  ghost function Records(info: map<nat, Info>, ids: seq<nat>): seq<Item>
    requires forall id :: id in ids ==> id in info
  {
    seq(|ids|, i requires 0 <= i < |ids| => Entry(RecordOf(info[ids[i]])))
  }

  ghost function Indices(order: seq<nat>, ids: seq<nat>): seq<Item>
    requires forall id :: id in ids ==> id in order
  {
    seq(|ids|, i requires 0 <= i < |ids| => Number(Rank(order, ids[i])))
  }

  ghost function SavedBucket(bucket: set<nat>, order: seq<nat>): seq<Item>
    requires forall id :: id in bucket ==> id in order
  {
    SortedIs(bucket);
    [Number(|bucket|)] + Indices(order, Sorted(bucket))
  }

  ghost function SavedBuckets(news: seq<set<nat>>, order: seq<nat>): seq<Item>
    requires forall b, id :: 0 <= b < |news| && id in news[b] ==> id in order
  {
    if news == [] then []
    else
      assert forall b :: 0 <= b < |news[1..]| ==> news[1..][b] == news[b + 1];
      SavedBucket(news[0], order) + SavedBuckets(news[1..], order)
  }

  ghost function NewIds(t: Tables): seq<nat> { Sorted(Ids(t.info, false)) }

  ghost function TriedIds(t: Tables): seq<nat> { Sorted(Ids(t.info, true)) }

  ghost predicate Savable(t: Tables) {
    forall b, id :: 0 <= b < |t.news| && id in t.news[b] ==> id in t.info && !t.info[id].fInTried
  }

  lemma SavedIs(t: Tables)
    requires Savable(t)
    ensures forall id :: id in NewIds(t) ==> id in t.info
    ensures forall id :: id in TriedIds(t) ==> id in t.info
    ensures forall b, id :: 0 <= b < |t.news| && id in t.news[b] ==> id in NewIds(t)
  {
    SortedIs(Ids(t.info, false));
    SortedIs(Ids(t.info, true));
    hide Sorted, Distinct;
  }

  ghost function Saved(t: Tables): seq<Item>
    requires Savable(t)
  {
    SavedIs(t);
    [Number(0), KeyBytes(t.nKey), Number(t.nNew), Number(t.nTried), Number(NEW_BUCKET_COUNT)]
    + (Records(t.info, NewIds(t)) + (Records(t.info, TriedIds(t)) + SavedBuckets(t.news, NewIds(t))))
  }

  // ---------- reading ----------

  /** One entry of the new table; from a stream with another number of buckets it goes
      straight to its own bucket. */
  function NewLoaded(h: Hashes, t: Tables, n: nat, r: Record, nUBuckets: int): Tables
    requires |t.news| == NEW_BUCKET_COUNT
  {
    var b := h.NewBucket(t.nKey, r.addr.ip, r.source);
    var e := InfoOf(r).(nRandomPos := |t.random|);
    var t1 := t.(addr := t.addr[r.addr.ip := n], random := t.random + [n]);
    if nUBuckets == NEW_BUCKET_COUNT then t1.(info := t.info[n := e])
    else t1.(info := t.info[n := e.(nRefCount := 1)], news := t.news[b := t.news[b] + {n}])
  }

  /** One entry of the tried table, or nothing if its bucket is full. */
  function TriedLoaded(h: Hashes, t: Tables, r: Record): Tables
    requires |t.tried| == TRIED_BUCKET_COUNT
  {
    var b := h.TriedBucket(t.nKey, r.addr);
    if |t.tried[b]| < TRIED_BUCKET_SIZE then
      t.(nIdCount := t.nIdCount + 1,
         info := t.info[t.nIdCount := InfoOf(r).(nRandomPos := |t.random|, fInTried := true)],
         addr := t.addr[r.addr.ip := t.nIdCount], random := t.random + [t.nIdCount],
         tried := t.tried[b := t.tried[b] + [t.nIdCount]])
    else t
  }

  /** One reference; an index without an entry makes a blank one. */
  function IndexLoaded(t: Tables, b: nat, index: nat, nUBuckets: int): Tables
    requires b < |t.news|
  {
    var e := if index in t.info then t.info[index] else BLANK;
    if nUBuckets == NEW_BUCKET_COUNT && e.nRefCount < NEW_BUCKETS_PER_ADDRESS then
      t.(info := t.info[index := e.(nRefCount := e.nRefCount + 1)], news := t.news[b := t.news[b] + {index}])
    else t.(info := t.info[index := e])
  }

  predicate Sized(t: Tables) { |t.tried| == TRIED_BUCKET_COUNT && |t.news| == NEW_BUCKET_COUNT }

  datatype Loading = Loading(t: Tables, rest: seq<Item>)

  function LoadNew(h: Hashes, t: Tables, n: nat, nUBuckets: int, s: seq<Item>): (r: Option<Loading>)
    requires Sized(t)
    ensures r.Some? ==> Sized(r.value.t)
    decreases t.nNew - n
  {
    if n >= t.nNew then Some(Loading(t, s))
    else if s == [] || !s[0].Entry? then None
    else LoadNew(h, NewLoaded(h, t, n, s[0].r, nUBuckets), n + 1, nUBuckets, s[1..])
  }

  function Lost(h: Hashes, t: Tables, r: Record): nat
    requires Sized(t)
  {
    if |t.tried[h.TriedBucket(t.nKey, r.addr)]| < TRIED_BUCKET_SIZE then 0 else 1
  }

  /** The count of tried entries goes down by those that found no room. */
  function LoadTried(h: Hashes, t: Tables, n: nat, nLost: nat, s: seq<Item>): (r: Option<Loading>)
    requires Sized(t)
    ensures r.Some? ==> Sized(r.value.t)
    decreases t.nTried - n
  {
    if n >= t.nTried then Some(Loading(t.(nTried := t.nTried - nLost), s))
    else if s == [] || !s[0].Entry? then None
    else LoadTried(h, TriedLoaded(h, t, s[0].r), n + 1, nLost + Lost(h, t, s[0].r), s[1..])
  }

  function LoadBucket(t: Tables, b: nat, n: nat, nSize: int, nUBuckets: int, s: seq<Item>): (r: Option<Loading>)
    requires Sized(t) && b < |t.news|
    ensures r.Some? ==> Sized(r.value.t)
    decreases nSize - n
  {
    if n >= nSize then Some(Loading(t, s))
    else if s == [] || !s[0].Number? || s[0].n < 0 then None
    else LoadBucket(IndexLoaded(t, b, s[0].n, nUBuckets), b, n + 1, nSize, nUBuckets, s[1..])
  }

  function LoadBuckets(t: Tables, b: nat, nUBuckets: int, s: seq<Item>): (r: Option<Loading>)
    requires Sized(t)
    ensures r.Some? ==> Sized(r.value.t)
    decreases nUBuckets - b
  {
    if b >= nUBuckets then Some(Loading(t, s))
    else if b >= NEW_BUCKET_COUNT || s == [] || !s[0].Number? then None
    else
      var l := LoadBucket(t, b, 0, s[0].n, nUBuckets, s[1..]);
      if l.None? then None else LoadBuckets(l.value.t, b + 1, nUBuckets, l.value.rest)
  }

  function Fresh(key: nat, nNew: int, nTried: int): Tables { Empty(key).(nNew := nNew, nTried := nTried) }

  function LoadEntries(h: Hashes, key: nat, nNew: int, nTried: int, nUBuckets: int, s: seq<Item>): (r: Option<Loading>)
    ensures r.Some? ==> Sized(r.value.t)
  {
    var l := LoadNew(h, Fresh(key, nNew, nTried), 0, nUBuckets, s);
    if l.None? then None else LoadTried(h, l.value.t.(nIdCount := if nNew > 0 then nNew else 0), 0, 0, l.value.rest)
  }

  /** The tables a stream gives, or none if it ends too early or holds something else. */
  function Load(h: Hashes, s: seq<Item>): (r: Option<Loading>) {
    if |s| >= 5 && s[0].Number? && s[1].KeyBytes? && s[2].Number? && s[3].Number? && s[4].Number? then
      var l := LoadEntries(h, s[1].key, s[2].n, s[3].n, s[4].n, s[5..]);
      if l.None? then None else LoadBuckets(l.value.t, 0, s[4].n, l.value.rest)
    else None
  }
}
