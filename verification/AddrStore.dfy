/** Writing the address manager to a stream and reading it back, loop by loop. */
module AddrStore {
  import opened Options
  import opened AddrTables
  import opened AddrOps
  import opened AddrMan
  import opened AddrStream
  import opened AddrReload

  lemma SortedCons(s: set<nat>, m: nat)
    requires m in s && forall x :: x in s ==> m <= x
    ensures Sorted(s) == [m] + Sorted(s - {m})
  {
    assert LeastOf(s) == m;
  }

  /** The ids of `ids` in order are those written so far, then those still to come. */
  ghost predicate Written(ids: set<nat>, done: seq<nat>, rest: set<nat>) {
    done + Sorted(ids * rest) == Sorted(ids)
  }

  lemma WrittenStep(ids: set<nat>, done: seq<nat>, rest: set<nat>, m: nat)
    requires Written(ids, done, rest) && m in rest && forall x :: x in rest ==> m <= x
    ensures Written(ids, if m in ids then done + [m] else done, rest - {m})
    ensures m in ids ==> |done| < |Sorted(ids)| && Sorted(ids)[|done|] == m
  {
    if m in ids {
      SortedCons(ids * rest, m);
      assert ids * rest - {m} == ids * (rest - {m});
      assert done + ([m] + Sorted(ids * (rest - {m}))) == done + [m] + Sorted(ids * (rest - {m}));
    } else {
      assert ids * rest == ids * (rest - {m});
    }
  }

  lemma WrittenAll(ids: set<nat>, done: seq<nat>, rest: set<nat>)
    requires Written(ids, done, rest) && (rest == {} || |done| == |ids|)
    ensures done == Sorted(ids)
  {
    SortedIs(ids);
    if rest == {} { assert ids * rest == {}; }
  }

  /** The stream so far holds the entries of `ids` met so far. */
  ghost predicate WritingRecords(info: map<nat, Info>, ids: set<nat>, done: seq<nat>, rest: set<nat>, s: seq<Item>) {
    (forall id :: id in done ==> id in info) && Written(ids, done, rest) && s == Records(info, done)
  }

  lemma RecordsStep(info: map<nat, Info>, ids: set<nat>, done: seq<nat>, rest: set<nat>, s: seq<Item>, m: nat)
    requires WritingRecords(info, ids, done, rest, s) && m in info && m in rest && forall x :: x in rest ==> m <= x
    ensures m in ids ==> WritingRecords(info, ids, done + [m], rest - {m}, s + [Entry(RecordOf(info[m]))])
    ensures m !in ids ==> WritingRecords(info, ids, done, rest - {m}, s)
  {
    WrittenStep(ids, done, rest, m);
    hide Written;
  }

  lemma RecordsStart(info: map<nat, Info>, ids: set<nat>)
    requires ids <= info.Keys
    ensures WritingRecords(info, ids, [], info.Keys, [])
  {
    assert ids * info.Keys == ids;
    assert [] + Sorted(ids) == Sorted(ids);
    hide Sorted;
  }

  /** The entries written are numbered by their places. */
  ghost predicate Numbered(done: seq<nat>, rest: set<nat>, mapUnkIds: map<nat, nat>) {
    forall k :: 0 <= k < |done| ==> done[k] !in rest && done[k] in mapUnkIds && mapUnkIds[done[k]] == k
  }

  lemma NumberedStep(done: seq<nat>, rest: set<nat>, mapUnkIds: map<nat, nat>, m: nat)
    requires Numbered(done, rest, mapUnkIds) && m in rest
    ensures Numbered(done, rest - {m}, mapUnkIds[m := |done|])
    ensures Numbered(done + [m], rest - {m}, mapUnkIds[m := |done|])
  {
  }

  lemma NumberedAll(ids: set<nat>, done: seq<nat>, rest: set<nat>, mapUnkIds: map<nat, nat>)
    requires Numbered(done, rest, mapUnkIds) && done == Sorted(ids)
    ensures forall id :: id in ids ==> id in Sorted(ids) && id in mapUnkIds && mapUnkIds[id] == Rank(Sorted(ids), id)
  {
    SortedIs(ids);
    forall id | id in ids ensures id in mapUnkIds && mapUnkIds[id] == Rank(Sorted(ids), id) {
      assert done[Rank(Sorted(ids), id)] == id;
    }
  }

  /** The entries of the new table, with the numbers their buckets will use; the loop stops
      when it has seen as many as it should. */
  method WriteNew(info: map<nat, Info>, nNew: nat) returns (s: seq<Item>, mapUnkIds: map<nat, nat>)
    requires nNew == |Ids(info, false)| && forall id :: id in info ==> (info[id].nRefCount != 0 <==> !info[id].fInTried)
    ensures (forall id :: id in Sorted(Ids(info, false)) ==> id in info) && s == Records(info, Sorted(Ids(info, false)))
    ensures forall id :: id in Ids(info, false) ==>
      id in Sorted(Ids(info, false)) && id in mapUnkIds && mapUnkIds[id] == Rank(Sorted(Ids(info, false)), id)
  {
    ghost var ids := Ids(info, false);
    ghost var done: seq<nat> := [];
    var nIds := 0;
    var rest := info.Keys;
    s, mapUnkIds := [], map[];
    RecordsStart(info, ids);
    assert Numbered(done, rest, mapUnkIds);
    hide WritingRecords, Numbered;
    while rest != {} && nIds != nNew
      invariant rest <= info.Keys && nIds == |done| && WritingRecords(info, ids, done, rest, s)
      invariant Numbered(done, rest, mapUnkIds)
      decreases rest
    {
      var it := Least(rest);
      NumberedStep(done, rest, mapUnkIds, it);
      RecordsStep(info, ids, done, rest, s, it);
      mapUnkIds := mapUnkIds[it := nIds];
      if info[it].nRefCount != 0 {
        s := s + [Entry(RecordOf(info[it]))];
        done := done + [it];
        nIds := nIds + 1;
      }
      rest := rest - {it};
    }
    RecordsAll(info, ids, done, rest, s);
    NumberedAll(ids, done, rest, mapUnkIds);
  }

  lemma RecordsAll(info: map<nat, Info>, ids: set<nat>, done: seq<nat>, rest: set<nat>, s: seq<Item>)
    requires WritingRecords(info, ids, done, rest, s) && (rest == {} || |done| == |ids|)
    ensures done == Sorted(ids) && (forall id :: id in Sorted(ids) ==> id in info) && s == Records(info, Sorted(ids))
  {
    WrittenAll(ids, done, rest);
  }

  method WriteTried(info: map<nat, Info>, nTried: nat) returns (s: seq<Item>)
    requires nTried == |Ids(info, true)|
    ensures (forall id :: id in Sorted(Ids(info, true)) ==> id in info) && s == Records(info, Sorted(Ids(info, true)))
  {
    ghost var ids := Ids(info, true);
    ghost var done: seq<nat> := [];
    var nIds := 0;
    var rest := info.Keys;
    s := [];
    RecordsStart(info, ids);
    hide WritingRecords;
    while rest != {} && nIds != nTried
      invariant rest <= info.Keys && nIds == |done| && WritingRecords(info, ids, done, rest, s)
      decreases rest
    {
      var it := Least(rest);
      RecordsStep(info, ids, done, rest, s, it);
      if info[it].fInTried {
        s := s + [Entry(RecordOf(info[it]))];
        done := done + [it];
        nIds := nIds + 1;
      }
      rest := rest - {it};
    }
    RecordsAll(info, ids, done, rest, s);
  }

  ghost predicate WritingIndices(bucket: set<nat>, order: seq<nat>, done: seq<nat>, rest: set<nat>, s: seq<Item>) {
    && (forall id :: id in done ==> id in order)
    && Written(bucket, done, rest) && s == [Number(|bucket|)] + Indices(order, done)
  }

  lemma IndicesStep(bucket: set<nat>, order: seq<nat>, done: seq<nat>, rest: set<nat>, s: seq<Item>, m: nat)
    requires WritingIndices(bucket, order, done, rest, s) && m in order && m in bucket && m in rest
    requires forall x :: x in rest ==> m <= x
    ensures WritingIndices(bucket, order, done + [m], rest - {m}, s + [Number(Rank(order, m))])
  {
    WrittenStep(bucket, done, rest, m);
    hide Written;
    assert Indices(order, done + [m]) == Indices(order, done) + [Number(Rank(order, m))];
  }

  lemma IndicesStart(bucket: set<nat>, order: seq<nat>)
    ensures WritingIndices(bucket, order, [], bucket, [Number(|bucket|)])
  {
    assert bucket * bucket == bucket;
    assert [] + Sorted(bucket) == Sorted(bucket);
    hide Sorted;
  }

  method WriteBucket(bucket: set<nat>, mapUnkIds: map<nat, nat>, ghost order: seq<nat>) returns (s: seq<Item>)
    requires forall id :: id in bucket ==> id in order && id in mapUnkIds && mapUnkIds[id] == Rank(order, id)
    ensures s == SavedBucket(bucket, order)
  {
    ghost var done: seq<nat> := [];
    var rest := bucket;
    s := [Number(|bucket|)];
    IndicesStart(bucket, order);
    hide WritingIndices;
    while rest != {}
      invariant rest <= bucket && WritingIndices(bucket, order, done, rest, s)
      decreases rest
    {
      var it := Least(rest);
      IndicesStep(bucket, order, done, rest, s, it);
      s := s + [Number(mapUnkIds[it])];
      done := done + [it];
      rest := rest - {it};
    }
    IndicesAll(bucket, order, done, s);
  }

  lemma IndicesAll(bucket: set<nat>, order: seq<nat>, done: seq<nat>, s: seq<Item>)
    requires WritingIndices(bucket, order, done, {}, s) && forall id :: id in bucket ==> id in order
    ensures s == SavedBucket(bucket, order)
  {
    WrittenAll(bucket, done, {});
  }

  lemma {:induction false} SavedBucketsSnoc(news: seq<set<nat>>, bucket: set<nat>, order: seq<nat>)
    requires forall b, id :: 0 <= b < |news| && id in news[b] ==> id in order
    requires forall id :: id in bucket ==> id in order
    ensures SavedBuckets(news + [bucket], order) == SavedBuckets(news, order) + SavedBucket(bucket, order)
    decreases |news|
  {
    if news == [] {
      assert news + [bucket] == [bucket] && [bucket][1..] == [];
      assert SavedBucket(bucket, order) + [] == SavedBucket(bucket, order);
    } else {
      SavedBucketsSnoc(news[1..], bucket, order);
      assert (news + [bucket])[1..] == news[1..] + [bucket];
      hide SavedBucket;
    }
  }

  method WriteBuckets(news: seq<set<nat>>, mapUnkIds: map<nat, nat>, ghost order: seq<nat>) returns (s: seq<Item>)
    requires forall b, id :: 0 <= b < |news| && id in news[b] ==>
               id in order && id in mapUnkIds && mapUnkIds[id] == Rank(order, id)
    ensures s == SavedBuckets(news, order)
  {
    s := [];
    var n := 0;
    while n < |news|
      invariant n <= |news| && s == SavedBuckets(news[..n], order)
    {
      var bucket := WriteBucket(news[n], mapUnkIds, order);
      SavedBucketsSnoc(news[..n], news[n], order);
      assert news[..n] + [news[n]] == news[..n + 1];
      s := s + bucket;
      n := n + 1;
    }
    assert news[..n] == news;
  }

  method Serialize(am: Manager) returns (s: seq<Item>)
    requires Inv(am.h, am.S())
    ensures Savable(am.S()) && s == Saved(am.S())
  {
    ghost var t := am.S();
    SavedParts(t, []);
    forall id | id in am.mapInfo ensures am.mapInfo[id].nRefCount != 0 <==> !am.mapInfo[id].fInTried {
      assert RefsOk(am.vvNew, id, am.mapInfo[id]);
    }
    hide RandomOk, AddrOk, TriedOk, NewOk, Records, SavedBuckets, Sorted;
    s := [Number(0), KeyBytes(am.nKey), Number(am.nNew), Number(am.nTried), Number(NEW_BUCKET_COUNT)];
    var news, mapUnkIds := WriteNew(am.mapInfo, am.nNew);
    var tried := WriteTried(am.mapInfo, am.nTried);
    var buckets := WriteBuckets(am.vvNew, mapUnkIds, Sorted(Ids(am.mapInfo, false)));
    s := s + (news + (tried + buckets));
  }

  // ---------- reading ----------

  method ReadNew(am: Manager, nUBuckets: int, s: seq<Item>) returns (ok: bool, rest: seq<Item>)
    requires Sized(am.S())
    modifies am
    ensures var l := LoadNew(am.h, old(am.S()), 0, nUBuckets, s);
            ok == l.Some? && (ok ==> am.S() == l.value.t && rest == l.value.rest)
  {
    ghost var l := LoadNew(am.h, am.S(), 0, nUBuckets, s);
    rest := s;
    var n := 0;
    while n < am.nNew
      invariant Sized(am.S()) && LoadNew(am.h, am.S(), n, nUBuckets, rest) == l
      decreases am.nNew - n
    {
      if rest == [] || !rest[0].Entry? { return false, rest; }
      ghost var t := am.S();
      ReadNewEntry(am, n, rest[0].r, nUBuckets);
      assert am.S() == NewLoaded(am.h, t, n, rest[0].r, nUBuckets);
      rest := rest[1..];
      n := n + 1;
    }
    ok := true;
  }

  method ReadNewEntry(am: Manager, n: nat, r: Record, nUBuckets: int)
    requires Sized(am.S())
    modifies am
    ensures am.S() == NewLoaded(am.h, old(am.S()), n, r, nUBuckets)
  {
    am.mapInfo := am.mapInfo[n := InfoOf(r)];
    am.mapAddr := am.mapAddr[r.addr.ip := n];
    am.mapInfo := am.mapInfo[n := am.mapInfo[n].(nRandomPos := |am.vRandom|)];
    am.vRandom := am.vRandom + [n];
    if nUBuckets != NEW_BUCKET_COUNT {
      var b := am.h.NewBucket(am.nKey, r.addr.ip, r.source);
      am.vvNew := am.vvNew[b := am.vvNew[b] + {n}];
      am.mapInfo := am.mapInfo[n := am.mapInfo[n].(nRefCount := am.mapInfo[n].nRefCount + 1)];
    }
  }

  method ReadTried(am: Manager, s: seq<Item>) returns (ok: bool, rest: seq<Item>)
    requires Sized(am.S())
    modifies am
    ensures var l := LoadTried(am.h, old(am.S()), 0, 0, s);
            ok == l.Some? && (ok ==> am.S() == l.value.t && rest == l.value.rest)
  {
    ghost var l := LoadTried(am.h, am.S(), 0, 0, s);
    rest := s;
    var n, nLost := 0, 0;
    while n < am.nTried
      invariant Sized(am.S()) && nLost >= 0 && LoadTried(am.h, am.S(), n, nLost, rest) == l
      decreases am.nTried - n
    {
      if rest == [] || !rest[0].Entry? { return false, rest; }
      ghost var t := am.S();
      var lost := ReadTriedEntry(am, rest[0].r);
      nLost := nLost + lost;
      rest := rest[1..];
      n := n + 1;
    }
    am.nTried := am.nTried - nLost;
    ok := true;
  }

  method ReadTriedEntry(am: Manager, r: Record) returns (lost: nat)
    requires Sized(am.S())
    modifies am
    ensures am.S() == TriedLoaded(am.h, old(am.S()), r) && lost == Lost(am.h, old(am.S()), r)
  {
    var b := am.h.TriedBucket(am.nKey, r.addr);
    if |am.vvTried[b]| < TRIED_BUCKET_SIZE {
      var e := InfoOf(r).(nRandomPos := |am.vRandom|, fInTried := true);
      am.vRandom := am.vRandom + [am.nIdCount];
      am.mapInfo := am.mapInfo[am.nIdCount := e];
      am.mapAddr := am.mapAddr[r.addr.ip := am.nIdCount];
      am.vvTried := am.vvTried[b := am.vvTried[b] + [am.nIdCount]];
      am.nIdCount := am.nIdCount + 1;
      lost := 0;
    } else {
      lost := 1;
    }
  }

  method ReadIndex(am: Manager, b: nat, nIndex: nat, nUBuckets: int)
    requires Sized(am.S()) && b < |am.vvNew|
    modifies am
    ensures am.S() == IndexLoaded(old(am.S()), b, nIndex, nUBuckets)
  {
    if nIndex !in am.mapInfo { am.mapInfo := am.mapInfo[nIndex := BLANK]; }
    else { assert am.mapInfo == am.mapInfo[nIndex := am.mapInfo[nIndex]]; }
    var e := am.mapInfo[nIndex];
    if nUBuckets == NEW_BUCKET_COUNT && e.nRefCount < NEW_BUCKETS_PER_ADDRESS {
      am.mapInfo := am.mapInfo[nIndex := e.(nRefCount := e.nRefCount + 1)];
      am.vvNew := am.vvNew[b := am.vvNew[b] + {nIndex}];
    }
  }

  method ReadBucket(am: Manager, b: nat, nSize: int, nUBuckets: int, s: seq<Item>) returns (ok: bool, rest: seq<Item>)
    requires Sized(am.S()) && b < |am.vvNew|
    modifies am
    ensures var l := LoadBucket(old(am.S()), b, 0, nSize, nUBuckets, s);
            ok == l.Some? && (ok ==> am.S() == l.value.t && rest == l.value.rest)
  {
    ghost var l := LoadBucket(am.S(), b, 0, nSize, nUBuckets, s);
    rest := s;
    var n := 0;
    hide IndexLoaded;
    while n < nSize
      invariant Sized(am.S()) && LoadBucket(am.S(), b, n, nSize, nUBuckets, rest) == l
      decreases nSize - n
    {
      if rest == [] || !rest[0].Number? || rest[0].n < 0 { return false, rest; }
      ghost var t := am.S();
      IndexSized(t, b, rest[0].n, nUBuckets);
      ReadIndex(am, b, rest[0].n, nUBuckets);
      rest := rest[1..];
      n := n + 1;
    }
    ok := true;
  }

  lemma IndexSized(t: Tables, b: nat, index: nat, nUBuckets: int)
    requires Sized(t) && b < |t.news|
    ensures Sized(IndexLoaded(t, b, index, nUBuckets))
  {
  }

  method ReadBuckets(am: Manager, nUBuckets: int, s: seq<Item>) returns (ok: bool, rest: seq<Item>)
    requires Sized(am.S())
    modifies am
    ensures var l := LoadBuckets(old(am.S()), 0, nUBuckets, s);
            ok == l.Some? && (ok ==> am.S() == l.value.t && rest == l.value.rest)
  {
    ghost var l := LoadBuckets(am.S(), 0, nUBuckets, s);
    rest := s;
    var b := 0;
    hide LoadBucket;
    while b < nUBuckets
      invariant b >= 0 && Sized(am.S()) && LoadBuckets(am.S(), b, nUBuckets, rest) == l
      decreases nUBuckets - b
    {
      if b >= NEW_BUCKET_COUNT || rest == [] || !rest[0].Number? { return false, rest; }
      ok, rest := ReadBucket(am, b, rest[0].n, nUBuckets, rest[1..]);
      if !ok { return false, rest; }
      b := b + 1;
    }
    ok := true;
  }

  /** Reads a stream; a stream that ends too early or holds something else leaves the tables
      half read, with result false. */
  method Unserialize(am: Manager, s: seq<Item>) returns (ok: bool, rest: seq<Item>)
    modifies am
    ensures ok == Load(am.h, s).Some?
    ensures ok ==> am.S() == Load(am.h, s).value.t && rest == Load(am.h, s).value.rest
  {
    rest := s;
    if !(|s| >= 5 && s[0].Number? && s[1].KeyBytes? && s[2].Number? && s[3].Number? && s[4].Number?) {
      return false, s;
    }
    am.nKey, am.nNew, am.nTried := s[1].key, s[2].n, s[3].n;
    var nUBuckets := s[4].n;
    am.nIdCount := 0;
    am.mapInfo, am.mapAddr, am.vRandom := map[], map[], [];
    am.vvTried := seq(TRIED_BUCKET_COUNT, _ => []);
    am.vvNew := seq(NEW_BUCKET_COUNT, _ => {});
    assert am.S() == Fresh(s[1].key, s[2].n, s[3].n);
    hide LoadNew, LoadTried, LoadBuckets, Fresh;
    ok, rest := ReadNew(am, nUBuckets, s[5..]);
    if !ok { return false, rest; }
    am.nIdCount := if s[2].n > 0 then s[2].n else 0;
    ok, rest := ReadTried(am, rest);
    if !ok { return false, rest; }
    ok, rest := ReadBuckets(am, nUBuckets, rest);
  }
}
