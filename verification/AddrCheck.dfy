/** The address manager's own consistency check: exactly what it accepts, and what it leaves
    unchecked. */
module AddrCheck {
  import opened Basics
  import opened AddrTables
  import opened AddrOps
  import opened AddrMan

  /** What a lookup by operator[] gives: a missing address is entered with id 0. */
  function Lookup(addr: map<nat, nat>, ip: nat): nat { if ip in addr then addr[ip] else 0 }

  predicate EntryPasses(e: Info, id: nat, addr: map<nat, nat>, random: seq<nat>) {
    && (if e.fInTried then e.nLastSuccess != 0 && e.nRefCount == 0 else 1 <= e.nRefCount <= NEW_BUCKETS_PER_ADDRESS)
    && Lookup(addr, e.addr.ip) == id
    && 0 <= e.nRandomPos < |random| && random[e.nRandomPos] == id
    && e.nLastTry >= 0 && e.nLastSuccess >= 0
  }

  function Flat(buckets: seq<seq<nat>>): seq<nat> {
    if buckets == [] then [] else buckets[0] + Flat(buckets[1..])
  }

  /** The lookups enter missing addresses with id 0, and change nothing else. */
  ghost predicate Grown(addr: map<nat, nat>, addr': map<nat, nat>) {
    && (forall ip :: ip in addr ==> ip in addr' && addr'[ip] == addr[ip])
    && forall ip :: ip in addr' && ip !in addr ==> addr'[ip] == 0
  }

  method CheckEntry(e: Info, n: nat, ghost addr: map<nat, nat>, addr0: map<nat, nat>, random: seq<nat>)
    returns (err: int, addr': map<nat, nat>)
    requires Grown(addr, addr0)
    ensures Grown(addr, addr') && (err == 0 <==> EntryPasses(e, n, addr, random))
  {
    addr' := addr0;
    if e.fInTried {
      if e.nLastSuccess == 0 { return -1, addr'; }
      if e.nRefCount != 0 { return -2, addr'; }
    } else {
      if e.nRefCount < 0 || e.nRefCount > NEW_BUCKETS_PER_ADDRESS { return -3, addr'; }
      if e.nRefCount == 0 { return -4, addr'; }
    }
    if e.addr.ip !in addr' { addr' := addr'[e.addr.ip := 0]; }
    if addr'[e.addr.ip] != n { return -5, addr'; }
    if e.nRandomPos < 0 || e.nRandomPos >= |random| || random[e.nRandomPos] != n { return -14, addr'; }
    if e.nLastTry < 0 { return -6, addr'; }
    if e.nLastSuccess < 0 { return -8, addr'; }
    err := 0;
  }

  /** The buckets list every one of the ids once, and nothing else. */
  ghost predicate ListsOnce(s: seq<nat>, ids: set<nat>) { Distinct(s) && SetOf(s) == ids }

  ghost function Refs(info: map<nat, Info>): map<nat, int> {
    map id | id in info && !info[id].fInTried :: info[id].nRefCount
  }

  ghost predicate HeldAsOften(news: seq<set<nat>>, refs: map<nat, int>) {
    && (forall b, id :: 0 <= b < |news| && id in news[b] ==> id in refs)
    && forall id :: id in refs ==> refs[id] == |Holders(news, id)|
  }

  ghost predicate Passes(t: Tables) {
    && |t.random| == t.nTried + t.nNew
    && (forall id :: id in t.info ==> EntryPasses(t.info[id], id, t.addr, t.random))
    && CountsOk(t)
    && ListsOnce(Flat(t.tried), Ids(t.info, true))
    && HeldAsOften(t.news, Refs(t.info))
  }

  // ---------- the three passes ----------

  method CheckEntries(info: map<nat, Info>, addr: map<nat, nat>, random: seq<nat>)
    returns (err: int, setTried: set<nat>, mapNew: map<nat, int>, addr': map<nat, nat>)
    ensures err == 0 <==> forall id :: id in info ==> EntryPasses(info[id], id, addr, random)
    ensures err == 0 ==> setTried == Ids(info, true) && mapNew == Refs(info)
    ensures forall ip :: ip in addr ==> ip in addr' && addr'[ip] == addr[ip]
    ensures err == 0 ==> forall ip :: ip in addr' && ip !in addr ==> addr'[ip] == 0
  {
    setTried, mapNew, addr' := {}, map[], addr;
    var rest := info.Keys;
    while rest != {}
      invariant rest <= info.Keys && Grown(addr, addr')
      invariant forall id :: id in info && id !in rest ==> EntryPasses(info[id], id, addr, random)
      invariant setTried == Ids(info, true) - rest
      invariant mapNew == map id | id in info && !info[id].fInTried && id !in rest :: info[id].nRefCount
      decreases rest
    {
      var n := Least(rest);
      var e := info[n];
      err, addr' := CheckEntry(e, n, addr, addr', random);
      if err != 0 { return; }
      if e.fInTried {
        setTried := setTried + {n};
      } else {
        mapNew := mapNew[n := e.nRefCount];
      }
      rest := rest - {n};
    }
    err := 0;
  }

  /** The ids listed so far have been struck out of the set, each once. */
  ghost predicate Struck(done: seq<nat>, ids: set<nat>, setTried: set<nat>) {
    Distinct(done) && SetOf(done) <= ids && setTried == ids - SetOf(done)
  }

  lemma StruckMore(done: seq<nat>, x: nat, more: seq<nat>, ids: set<nat>, setTried: set<nat>)
    requires Struck(done, ids, setTried)
    ensures x in setTried ==> Struck(done + [x], ids, setTried - {x})
    ensures x !in setTried ==> !ListsOnce(done + ([x] + more), ids)
  {
    var s := done + ([x] + more);
    assert s[|done|] == x && x in SetOf(s);
    forall i | 0 <= i < |done| ensures s[i] == done[i] {}
    if x in setTried { assert SetOf(done + [x]) == SetOf(done) + {x}; }
  }

  lemma StruckAll(done: seq<nat>, ids: set<nat>, setTried: set<nat>)
    requires Struck(done, ids, setTried)
    ensures setTried == {} <==> ListsOnce(done, ids)
  {
    if setTried == {} {
      forall x | x in ids ensures x in SetOf(done) { assert x !in setTried; }
    }
  }

  method StrikeBucket(bucket: seq<nat>, set0: set<nat>, ghost done: seq<nat>, ghost more: seq<nat>, ghost ids: set<nat>)
    returns (err: int, setTried: set<nat>)
    requires Struck(done, ids, set0)
    ensures err == 0 ==> Struck(done + bucket, ids, setTried)
    ensures err != 0 ==> !ListsOnce(done + bucket + more, ids)
  {
    setTried := set0;
    var it := 0;
    assert done + bucket[..0] == done;
    hide Struck, ListsOnce;
    while it < |bucket|
      invariant it <= |bucket| && Struck(done + bucket[..it], ids, setTried)
    {
      var x := bucket[it];
      StruckMore(done + bucket[..it], x, bucket[it + 1..] + more, ids, setTried);
      if x !in setTried {
        assert done + bucket[..it] + ([x] + (bucket[it + 1..] + more)) == done + bucket + more;
        return -11, setTried;
      }
      setTried := setTried - {x};
      assert done + bucket[..it] + [x] == done + bucket[..it + 1];
      it := it + 1;
    }
    assert bucket[..it] == bucket;
    err := 0;
  }

  /** Strikes out the listed entries; what is left over is returned with result 0. */
  method CheckTried(tried: seq<seq<nat>>, ids: set<nat>) returns (err: int, setTried: set<nat>)
    ensures err == 0 && setTried == {} <==> ListsOnce(Flat(tried), ids)
  {
    setTried := ids;
    ghost var done: seq<nat> := [];
    assert Struck(done, ids, setTried);
    hide Struck, ListsOnce;
    var n := 0;
    while n < |tried|
      invariant n <= |tried| && done + Flat(tried[n..]) == Flat(tried)
      invariant Struck(done, ids, setTried)
    {
      assert Flat(tried[n..]) == tried[n] + Flat(tried[n + 1..]) by { assert tried[n..][1..] == tried[n + 1..]; }
      assert done + (tried[n] + Flat(tried[n + 1..])) == done + tried[n] + Flat(tried[n + 1..]);
      err, setTried := StrikeBucket(tried[n], setTried, done, Flat(tried[n + 1..]), ids);
      if err != 0 { return err, setTried; }
      done := done + tried[n];
      n := n + 1;
    }
    StruckAll(done, ids, setTried);
    err := 0;
  }

  /** How often the first n buckets, and those struck out of the next, hold an id. */
  ghost function Seen(news: seq<set<nat>>, n: nat, struck: set<nat>, id: nat): nat
    requires n <= |news|
  {
    |Holders(news[..n], id)| + if id in struck then 1 else 0
  }

  ghost predicate Counted(news: seq<set<nat>>, refs: map<nat, int>, mapNew: map<nat, int>, n: nat, struck: set<nat>)
    requires n <= |news|
  {
    && (forall b, id :: 0 <= b < n && id in news[b] ==> id in refs)
    && (forall id :: id in struck ==> id in refs)
    && (forall id :: id in mapNew ==> id in refs)
    && forall id :: id in refs ==> CountedId(Seen(news, n, struck, id), refs[id], mapNew, id)
  }

  ghost predicate CountedId(seen: nat, ref: int, mapNew: map<nat, int>, id: nat) {
    seen <= ref && (id in mapNew <==> seen < ref) && (id in mapNew ==> mapNew[id] == ref - seen)
  }

  lemma SeenMore(news: seq<set<nat>>, n: nat, id: nat)
    requires n < |news|
    ensures Seen(news, n + 1, {}, id) == Seen(news, n, news[n], id)
    ensures id in news[n] ==> |Holders(news[..n], id)| < |Holders(news, id)|
  {
    var a, b, c := Holders(news[..n], id), Holders(news[..n + 1], id), Holders(news, id);
    assert b == if id in news[n] then a + {n} else a;
    assert c == b + (c - b);
  }

  lemma CountedStrike(news: seq<set<nat>>, refs: map<nat, int>, mapNew: map<nat, int>, n: nat, struck: set<nat>,
                      id: nat)
    requires n < |news| && id in news[n] && id !in struck && Counted(news, refs, mapNew, n, struck)
    ensures id !in mapNew ==> !HeldAsOften(news, refs)
    ensures id in mapNew ==>
      Counted(news, refs, if mapNew[id] == 1 then mapNew - {id} else mapNew[id := mapNew[id] - 1], n, struck + {id})
  {
    SeenMore(news, n, id);
    if id in mapNew {
      var mapNew' := if mapNew[id] == 1 then mapNew - {id} else mapNew[id := mapNew[id] - 1];
      forall j | j in refs ensures CountedId(Seen(news, n, struck + {id}, j), refs[j], mapNew', j) {
        assert CountedId(Seen(news, n, struck, j), refs[j], mapNew, j);
      }
    } else if id in refs {
      assert CountedId(Seen(news, n, struck, id), refs[id], mapNew, id);
    }
  }

  lemma CountedNext(news: seq<set<nat>>, refs: map<nat, int>, mapNew: map<nat, int>, n: nat)
    requires n < |news| && Counted(news, refs, mapNew, n, news[n])
    ensures Counted(news, refs, mapNew, n + 1, {})
  {
    forall id | id in refs ensures CountedId(Seen(news, n + 1, {}, id), refs[id], mapNew, id) {
      SeenMore(news, n, id);
      assert CountedId(Seen(news, n, news[n], id), refs[id], mapNew, id);
    }
  }

  lemma CountedAll(news: seq<set<nat>>, refs: map<nat, int>, mapNew: map<nat, int>)
    requires Counted(news, refs, mapNew, |news|, {})
    ensures mapNew == map[] <==> HeldAsOften(news, refs)
  {
    assert news[..|news|] == news;
    forall id | id in refs ensures CountedId(|Holders(news, id)|, refs[id], mapNew, id) {
      assert CountedId(Seen(news, |news|, {}, id), refs[id], mapNew, id);
    }
    if HeldAsOften(news, refs) {
      assert forall id :: id !in mapNew;
    }
  }

  lemma CountedStart(news: seq<set<nat>>, refs: map<nat, int>)
    requires forall id :: id in refs ==> refs[id] >= 1
    ensures Counted(news, refs, refs, 0, {})
  {
    assert forall id :: Holders(news[..0], id) == {};
  }

  lemma OneLess(s: set<nat>, rest: set<nat>, it: nat)
    requires it in rest && rest <= s
    ensures s - (rest - {it}) == s - rest + {it}
  {
  }

  method CheckNew(news: seq<set<nat>>, refs: map<nat, int>) returns (err: int, mapNew: map<nat, int>)
    requires forall id :: id in refs ==> refs[id] >= 1
    ensures err == 0 && mapNew == map[] <==> HeldAsOften(news, refs)
  {
    mapNew := refs;
    var n := 0;
    CountedStart(news, refs);
    hide Counted, HeldAsOften;
    while n < |news|
      invariant n <= |news| && Counted(news, refs, mapNew, n, {})
    {
      var rest := news[n];
      assert news[n] - rest == {};
      while rest != {}
        invariant rest <= news[n] && Counted(news, refs, mapNew, n, news[n] - rest)
        decreases rest
      {
        var it := Least(rest);
        CountedStrike(news, refs, mapNew, n, news[n] - rest, it);
        if it !in mapNew { return -12, mapNew; }
        OneLess(news[n], rest, it);
        mapNew := if mapNew[it] == 1 then mapNew - {it} else mapNew[it := mapNew[it] - 1];
        rest := rest - {it};
      }
      assert news[n] - rest == news[n];
      CountedNext(news, refs, mapNew, n);
      n := n + 1;
    }
    CountedAll(news, refs, mapNew);
    err := 0;
  }

  /** The check answers 0 for exactly the tables that pass. */
  method Check(am: Manager) returns (err: int)
    modifies am`mapAddr
    ensures err == 0 <==> Passes(old(am.S()))
    ensures forall ip :: ip in old(am.mapAddr) ==> ip in am.mapAddr && am.mapAddr[ip] == old(am.mapAddr)[ip]
  {
    if |am.vRandom| != am.nTried + am.nNew { return -7; }
    var e, setTried, mapNew, addr := CheckEntries(am.mapInfo, am.mapAddr, am.vRandom);
    am.mapAddr := addr;
    if e != 0 { return e; }
    assert mapNew.Keys == Ids(am.mapInfo, false);
    if |setTried| != am.nTried { return -9; }
    if |mapNew| != am.nNew { return -10; }
    var e1, e2;
    e1, setTried := CheckTried(am.vvTried, setTried);
    if e1 != 0 { return e1; }
    e2, mapNew := CheckNew(am.vvNew, mapNew);
    if e2 != 0 { return e2; }
    if setTried != {} { return -13; }
    if mapNew != map[] { return -15; }
    err := 0;
  }

  // ---------- what passing means ----------

  /** What the check does not look at: the sizes of the buckets, whether a tried entry is in
      its own bucket, addresses without an entry, and ids not yet given out. */
  ghost predicate Unchecked(h: Hashes, t: Tables) {
    && |t.tried| == TRIED_BUCKET_COUNT && |t.news| == NEW_BUCKET_COUNT
    && (forall b :: 0 <= b < |t.tried| ==> |t.tried[b]| <= TRIED_BUCKET_SIZE)
    && (forall b :: 0 <= b < |t.news| ==> |t.news[b]| <= NEW_BUCKET_SIZE)
    && (forall b, id :: 0 <= b < |t.tried| && id in t.tried[b] && id in t.info ==>
          h.TriedBucket(t.nKey, t.info[id].addr) == b)
    && (forall id :: id in t.info ==> t.info[id].addr.ip in t.addr)
    && (forall ip :: ip in t.addr ==> t.addr[ip] in t.info && t.info[t.addr[ip]].addr.ip == ip)
    && IdsOk(t)
  }

  lemma {:induction false} FlatMembers(buckets: seq<seq<nat>>)
    ensures forall b, id :: 0 <= b < |buckets| && id in buckets[b] ==> id in Flat(buckets)
    ensures forall id :: id in Flat(buckets) ==> exists b :: 0 <= b < |buckets| && id in buckets[b]
    decreases |buckets|
  {
    if buckets != [] {
      FlatMembers(buckets[1..]);
      assert Flat(buckets) == buckets[0] + Flat(buckets[1..]);
      hide Flat;
      forall b, id | 0 <= b < |buckets| && id in buckets[b] ensures id in Flat(buckets) {
        if b > 0 { assert id in buckets[1..][b - 1]; }
      }
      forall id | id in Flat(buckets) ensures exists b :: 0 <= b < |buckets| && id in buckets[b] {
        if id !in buckets[0] {
          assert id in Flat(buckets[1..]);
          var b :| 0 <= b < |buckets[1..]| && id in buckets[1..][b];
          assert id in buckets[b + 1];
        }
      }
    }
  }

  lemma DistinctConcat(a: seq<nat>, b: seq<nat>)
    ensures Distinct(a + b) <==> Distinct(a) && Distinct(b) && forall x :: x in a ==> x !in b
  {
    if Distinct(a + b) {
      forall i, j | 0 <= i < j < |b| ensures b[i] != b[j] { assert (a + b)[|a| + i] != (a + b)[|a| + j]; }
      forall i, j | 0 <= i < j < |a| ensures a[i] != a[j] { assert (a + b)[i] != (a + b)[j]; }
      forall x | x in a ensures x !in b {
        var i :| 0 <= i < |a| && a[i] == x;
        forall j | 0 <= j < |b| ensures b[j] != x { assert (a + b)[i] != (a + b)[|a| + j]; }
      }
    }
    if Distinct(a) && Distinct(b) && forall x :: x in a ==> x !in b {
      forall i, j | 0 <= i < j < |a + b| ensures (a + b)[i] != (a + b)[j] {
        if i < |a| <= j { assert a[i] in a; assert b[j - |a|] in b; }
      }
    }
  }

  ghost predicate Apart(buckets: seq<seq<nat>>) {
    forall b, c, id :: 0 <= b < c < |buckets| && id in buckets[b] ==> id !in buckets[c]
  }

  lemma {:induction false} FlatDistinct(buckets: seq<seq<nat>>)
    ensures Distinct(Flat(buckets)) <==> (forall b :: 0 <= b < |buckets| ==> Distinct(buckets[b])) && Apart(buckets)
    decreases |buckets|
  {
    if buckets != [] {
      var more := buckets[1..];
      FlatDistinct(more);
      FlatMembers(more);
      DistinctConcat(buckets[0], Flat(more));
      assert forall b :: 0 < b < |buckets| ==> buckets[b] == more[b - 1];
      if Distinct(Flat(buckets)) {
        forall b, c, id | 0 <= b < c < |buckets| && id in buckets[b] ensures id !in buckets[c] {
          if b > 0 {
            assert id in more[b - 1];
            assert id !in more[c - 1];
          } else {
            assert id !in Flat(more);
            assert more[c - 1] == buckets[c];
          }
        }
      }
      if (forall b :: 0 <= b < |buckets| ==> Distinct(buckets[b])) && Apart(buckets) {
        assert Apart(more);
        forall x | x in buckets[0] ensures x !in Flat(more) {
          forall b | 0 <= b < |more| ensures x !in more[b] { assert buckets[b + 1] == more[b]; }
        }
      }
    }
  }

  lemma TriedPasses(h: Hashes, key: nat, info: map<nat, Info>, tried: seq<seq<nat>>)
    requires |tried| == TRIED_BUCKET_COUNT && forall b :: 0 <= b < |tried| ==> |tried[b]| <= TRIED_BUCKET_SIZE
    requires forall b, id :: 0 <= b < |tried| && id in tried[b] && id in info ==> h.TriedBucket(key, info[id].addr) == b
    ensures TriedOk(h, key, info, tried) <==> ListsOnce(Flat(tried), Ids(info, true))
  {
    FlatMembers(tried);
    FlatDistinct(tried);
    var ids := Ids(info, true);
    if ListsOnce(Flat(tried), ids) {
      forall b, id | 0 <= b < |tried| && id in tried[b] ensures id in info && info[id].fInTried {
        assert id in Flat(tried);
        assert id in SetOf(Flat(tried));
        assert id in ids;
      }
      forall id | id in ids ensures id in tried[h.TriedBucket(key, info[id].addr)] {
        assert id in SetOf(Flat(tried));
        var b :| 0 <= b < |tried| && id in tried[b];
      }
      assert TriedOk(h, key, info, tried);
    }
    if TriedOk(h, key, info, tried) {
      forall b, c, id | 0 <= b < c < |tried| && id in tried[b] ensures id !in tried[c] {
        assert h.TriedBucket(key, info[id].addr) == b;
      }
      assert Apart(tried);
      forall id | id in ids ensures id in SetOf(Flat(tried)) { assert id in tried[h.TriedBucket(key, info[id].addr)]; }
      forall id | id in SetOf(Flat(tried)) ensures id in ids {
        var b :| 0 <= b < |tried| && id in tried[b];
      }
      assert SetOf(Flat(tried)) == ids;
    }
  }

  lemma NewPasses(info: map<nat, Info>, news: seq<set<nat>>)
    requires |news| == NEW_BUCKET_COUNT && forall b :: 0 <= b < |news| ==> |news[b]| <= NEW_BUCKET_SIZE
    requires forall id :: id in info ==>
      if info[id].fInTried then info[id].nRefCount == 0 else 1 <= info[id].nRefCount <= NEW_BUCKETS_PER_ADDRESS
    ensures NewOk(info, news, {}) <==> HeldAsOften(news, Refs(info))
  {
    var refs := Refs(info);
    if NewOk(info, news, {}) {
      forall id | id in refs ensures refs[id] == |Holders(news, id)| { assert RefsOk(news, id, info[id]); }
      forall b, id | 0 <= b < |news| && id in news[b] ensures id in refs { assert id in info; }
      assert HeldAsOften(news, refs);
    }
    if HeldAsOften(news, refs) {
      forall id | id in info ensures RefsOk(news, id, info[id]) {
        if !info[id].fInTried { assert id in refs; }
      }
      forall b, id | 0 <= b < |news| && id in news[b] ensures id in info && !info[id].fInTried { assert id in refs; }
      assert NewOk(info, news, {});
    }
  }

  /** The places recorded are those in the list, and as many: the list is a permutation. */
  lemma RandomPasses(info: map<nat, Info>, random: seq<nat>)
    requires forall id :: id in info ==> 0 <= info[id].nRandomPos < |random| && random[info[id].nRandomPos] == id
    requires |random| == |info|
    ensures RandomOk(info, random)
  {
    assert SetOf(random) >= info.Keys;
    SetOfCard(random);
    SubsetCard(info.Keys, SetOf(random));
    DistinctByCount(random);
    forall i | 0 <= i < |random| ensures random[i] in info && info[random[i]].nRandomPos == i {
      assert random[i] in SetOf(random);
      var j := info[random[i]].nRandomPos;
      assert random[j] == random[i];
    }
  }

  lemma {:induction false} DistinctByCount(s: seq<nat>)
    requires |SetOf(s)| == |s|
    ensures Distinct(s)
    decreases |s|
  {
    if s != [] {
      assert SetOf(s) == {s[0]} + SetOf(s[1..]);
      SetOfCard(s[1..]);
      DistinctByCount(s[1..]);
      assert s[0] !in SetOf(s[1..]);
      assert forall i :: 0 < i < |s| ==> s[i] == s[1..][i - 1];
    }
  }

  /** The invariant, with sound times, is passing the check together with what the check does
      not look at: on tables in order the check always answers 0. */
  lemma InvPasses(h: Hashes, t: Tables)
    ensures Inv(h, t) && TimesOk(t) <==> Passes(t) && Unchecked(h, t)
  {
    if Inv(h, t) && TimesOk(t) { SoundPasses(h, t); }
    if Passes(t) && Unchecked(h, t) { PassesSound(h, t); }
  }

  /** In every run whose times are sound, from an empty table on, the check passes all along. */
  lemma RunPasses(h: Hashes, states: seq<Tables>, ops: seq<Op>, n: nat)
    requires |states| == |ops| + 1 && Inv(h, states[0]) && TimesOk(states[0]) && IsRun(h, states, ops) && n <= |ops|
    requires forall i :: 0 <= i < |ops| ==> TimeSound(ops[i])
    ensures Passes(states[n]) && Unchecked(h, states[n])
  {
    hide *;
    RunInv(h, states, ops, n);
    RunTimes(h, states, ops, n);
    InvPasses(h, states[n]);
  }

  lemma SoundPasses(h: Hashes, t: Tables)
    requires Inv(h, t) && TimesOk(t)
    ensures Passes(t) && Unchecked(h, t)
  {
    Capacity(h, t);
    TriedPasses(h, t.nKey, t.info, t.tried);
    forall id | id in t.info ensures EntryPasses(t.info[id], id, t.addr, t.random) {
      assert RefsOk(t.news, id, t.info[id]);
    }
    NewPasses(t.info, t.news);
  }

  lemma PassesSound(h: Hashes, t: Tables)
    requires Passes(t) && Unchecked(h, t)
    ensures Inv(h, t) && TimesOk(t)
  {
    assert forall id :: id in t.info ==> EntryPasses(t.info[id], id, t.addr, t.random);
    hide EntryPasses, RandomOk, AddrOk, TriedOk, NewOk, TimesOk, ListsOnce, HeldAsOften;
    EntriesPlaced(t);
    EntriesTimely(t);
    EntriesKnown(t);
    EntriesCounted(t);
    TriedPasses(h, t.nKey, t.info, t.tried);
    NewPasses(t.info, t.news);
  }

  lemma EntriesPlaced(t: Tables)
    requires forall id :: id in t.info ==> EntryPasses(t.info[id], id, t.addr, t.random)
    requires CountsOk(t) && |t.random| == t.nTried + t.nNew
    ensures RandomOk(t.info, t.random)
  {
    hide RandomOk, Lookup;
    IdsSplit(t.info);
    RandomPasses(t.info, t.random);
  }

  lemma IdsSplit(info: map<nat, Info>)
    ensures |info| == |Ids(info, true)| + |Ids(info, false)|
  {
    assert info.Keys == Ids(info, true) + Ids(info, false);
  }

  lemma EntriesTimely(t: Tables)
    requires forall id :: id in t.info ==> EntryPasses(t.info[id], id, t.addr, t.random)
    ensures TimesOk(t)
  {
    hide Lookup;
  }

  lemma EntriesKnown(t: Tables)
    requires forall id :: id in t.info ==> EntryPasses(t.info[id], id, t.addr, t.random)
    requires forall id :: id in t.info ==> t.info[id].addr.ip in t.addr
    requires forall ip :: ip in t.addr ==> t.addr[ip] in t.info && t.info[t.addr[ip]].addr.ip == ip
    ensures AddrOk(t.info, t.addr)
  {
  }

  lemma EntriesCounted(t: Tables)
    requires forall id :: id in t.info ==> EntryPasses(t.info[id], id, t.addr, t.random)
    ensures forall id :: id in t.info ==>
              if t.info[id].fInTried then t.info[id].nRefCount == 0
              else 1 <= t.info[id].nRefCount <= NEW_BUCKETS_PER_ADDRESS
  {
    hide Lookup;
  }
}
