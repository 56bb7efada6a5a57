/** What each operation of the address manager may do to its tables, whatever the random
    choices; that every one keeps the invariant; and what that means for whole runs. */
module AddrOps {
  import opened Basics
  import opened Options
  import opened AddrTables

  const GETADDR_MAX_PCT := 23
  const GETADDR_MAX := 2500

  /** An address as peers announce it. */
  datatype Announced = Announced(addr: Service, nServices: bv64, nTime: int)

  function BothServices(a: bv64, b: bv64): bv64 { a | b }

  // ---------- the posts ----------

  /** An entry refreshed by hearing of its address again. */
  function Refreshed(e: Info, a: Announced, now: int, penalty: int): Info {
    var interval := if now - a.nTime < 24 * 60 * 60 then 60 * 60 else 24 * 60 * 60;
    var stale := a.nTime != 0 && (e.nTime == 0 || e.nTime < a.nTime - interval - penalty);
    e.(nTime := if stale then Max(0, a.nTime - penalty) else e.nTime,
       nServices := BothServices(e.nServices, a.nServices))
  }

  function Introduced(a: Announced, source: nat, penalty: int): Info {
    Info(a.addr, a.nServices, Max(0, a.nTime - penalty), 0, source, 0, 0, 0, false, -1)
  }

  /** Whether an address heard of again may get one more reference. */
  predicate MayList(e: Info, a: Announced) {
    && a.nTime != 0 && !(e.nTime != 0 && a.nTime <= e.nTime)
    && !e.fInTried && e.nRefCount != NEW_BUCKETS_PER_ADDRESS
  }

  /** Whether an entry is not worth keeping. */
  predicate IsTerrible(e: Info, now: int) {
    if e.nLastTry != 0 && e.nLastTry >= now - 60 then false
    else if e.nTime > now + 10 * 60 then true
    else if e.nTime == 0 || now - e.nTime > 30 * 86400 then true
    else if e.nLastSuccess == 0 && e.nAttempts >= 3 then true
    else now - e.nLastSuccess > 7 * 86400 && e.nAttempts >= 10
  }

  /** The place of x among the members in their order: how many are smaller. */
  ghost function PlaceOf(s: set<nat>, x: nat): nat { |set y | y in s && y < x| }

  ghost predicate DrawsOk(draws: seq<nat>, size: nat) { |draws| == 4 && forall i :: 0 <= i < 4 ==> draws[i] < size }

  /** The entry of least time among those at the drawn places, and the smallest of several. */
  ghost predicate OldestDrawn(info: map<nat, Info>, bucket: set<nat>, draws: seq<nat>, oldest: nat) {
    && oldest in bucket && oldest in info && PlaceOf(bucket, oldest) in draws
    && forall id :: id in bucket && id in info && PlaceOf(bucket, id) in draws ==> Older(info, oldest, id)
  }

  ghost predicate Older(info: map<nat, Info>, x: nat, y: nat)
    requires x in info && y in info
  {
    info[x].nTime < info[y].nTime || (info[x].nTime == info[y].nTime && x <= y)
  }

  ghost predicate SomeTerrible(info: map<nat, Info>, bucket: set<nat>, now: int) {
    exists id :: id in bucket && id in info && IsTerrible(info[id], now)
  }

  ghost predicate FirstTerrible(info: map<nat, Info>, bucket: set<nat>, now: int, first: nat) {
    && first in bucket && first in info && IsTerrible(info[first], now)
    && forall id :: id in bucket && id in info && id < first ==> !IsTerrible(info[id], now)
  }

  /** Which entry of a full bucket goes: the first terrible one, or else the oldest of those at
      four drawn places. */
  ghost predicate VictimOk(info: map<nat, Info>, bucket: set<nat>, victim: nat, now: int) {
    if SomeTerrible(info, bucket, now) then FirstTerrible(info, bucket, now, victim)
    else exists draws: seq<nat> :: DrawsOk(draws, |bucket|) && OldestDrawn(info, bucket, draws, victim)
  }

  ghost predicate RoomOk(t: Tables, id: nat, b: nat, now: int, victim: nat)
    requires id in t.info && b < |t.news|
  {
    |t.news[b]| == NEW_BUCKET_SIZE ==>
      CanDrop(Bumped(t, id), b, victim) && VictimOk(Bumped(t, id).info, t.news[b], victim, now)
  }

  ghost predicate PlacedSomehow(t: Tables, id: nat, b: nat, now: int, t': Tables)
    requires id in t.info && b < |t.news|
  {
    exists victim: nat :: RoomOk(t, id, b, now, victim) && t' == Placed(t, id, b, victim)
  }

  ghost predicate AddPost(h: Hashes, t: Tables, t': Tables, routable: bool, a: Announced, source: nat, now: int,
                          penalty: int, isNew: bool)
    requires Inv(h, t)
  {
    var b := h.NewBucket(t.nKey, a.addr.ip, source);
    if !routable then !isNew && t' == t
    else if a.addr.ip in t.addr then
      var id := t.addr[a.addr.ip];
      var t1 := t.(info := t.info[id := Refreshed(t.info[id], a, now, penalty)]);
      && !isNew
      && (t' == t1 || (MayList(t1.info[id], a) && id !in t1.news[b] && PlacedSomehow(t1, id, b, now, t')))
    else
      isNew && PlacedSomehow(Created(t, Introduced(a, source, penalty)), t.nIdCount, b, now, t')
  }

  function Succeeded(e: Info, time: int): Info {
    e.(nLastSuccess := time, nLastTry := time, nTime := time, nAttempts := 0)
  }

  /** Draws of one from all places, one from all but the first, and so on. */
  predicate InReach(draws: seq<nat>, size: nat) {
    |draws| <= size && forall n :: 0 <= n < |draws| ==> draws[n] < size - n
  }

  /** The bucket after the n-th place was exchanged with the one `draws[n]` further on, for every
      n in turn. */
  function ShuffledBy(bucket: seq<nat>, draws: seq<nat>): (r: seq<nat>)
    requires InReach(draws, |bucket|)
    ensures |r| == |bucket|
  {
    if draws == [] then bucket
    else
      var n := |draws| - 1;
      WithSwap(ShuffledBy(bucket, draws[..n]), n, draws[n] + n)
  }

  function WithSwap(bucket: seq<nat>, i: nat, j: nat): (r: seq<nat>)
    requires i < |bucket| && j < |bucket|
    ensures |r| == |bucket|
  {
    bucket[j := bucket[i]][i := bucket[j]]
  }

  lemma ShuffledUnfold(bucket: seq<nat>, draws: seq<nat>)
    requires draws != [] && InReach(draws, |bucket|)
    ensures var n := |draws| - 1;
            ShuffledBy(bucket, draws) == WithSwap(ShuffledBy(bucket, draws[..n]), n, draws[n] + n)
  {
    hide WithSwap;
  }

  lemma InReachMore(draws: seq<nat>, r: nat, size: nat)
    requires InReach(draws, size) && |draws| < size && r < size - |draws|
    ensures InReach(draws + [r], size) && (draws + [r])[..|draws|] == draws
  {
    var all := draws + [r];
    assert all[|draws|] == r;
    forall n | 0 <= n < |draws| ensures all[n] < size - n { assert all[n] == draws[n]; }
  }

  lemma ShuffledMore(bucket: seq<nat>, draws: seq<nat>, r: nat)
    requires InReach(draws, |bucket|) && |draws| < |bucket| && r < |bucket| - |draws|
    ensures InReach(draws + [r], |bucket|)
    ensures ShuffledBy(bucket, draws + [r]) == WithSwap(ShuffledBy(bucket, draws), |draws|, r + |draws|)
  {
    hide InReach, ShuffledBy, WithSwap;
    InReachMore(draws, r, |bucket|);
    ShuffledUnfold(bucket, draws + [r]);
  }

  /** At place m is the first of least last success among the first so many. */
  ghost predicate FirstLeast(info: map<nat, Info>, bucket: seq<nat>, count: nat, m: nat) {
    && m < count <= |bucket| && (forall n :: 0 <= n < count ==> bucket[n] in info)
    && (forall n :: 0 <= n < count ==> info[bucket[m]].nLastSuccess <= info[bucket[n]].nLastSuccess)
    && forall n :: 0 <= n < m ==> info[bucket[m]].nLastSuccess < info[bucket[n]].nLastSuccess
  }

  /** How a tried entry is named: by the place from which the one of least last success among
      those drawn was brought to the front. */
  ghost predicate NamedBy(info: map<nat, Info>, was: seq<nat>, bucket: seq<nat>, draws: seq<nat>, m: nat, pos: nat) {
    && |draws| == (if |was| < 4 then |was| else 4) && InReach(draws, |was|)
    && bucket == ShuffledBy(was, draws) && FirstLeast(info, bucket, |draws|, m) && pos == m + draws[m]
  }

  ghost predicate Named(info: map<nat, Info>, was: seq<nat>, bucket: seq<nat>, pos: nat) {
    exists draws: seq<nat>, m: nat :: NamedBy(info, was, bucket, draws, m, pos)
  }

  /** Exactly when the place that is named holds the entry that was chosen: when that entry was
      drawn from the place it was brought to. */
  lemma NamedIsChosen(info: map<nat, Info>, was: seq<nat>, bucket: seq<nat>, draws: seq<nat>, m: nat, pos: nat)
    requires Distinct(was) && NamedBy(info, was, bucket, draws, m, pos)
    ensures m <= pos < |bucket| && (bucket[pos] == bucket[m] <==> draws[m] == 0)
  {
    ShuffledByShuffled(was, draws);
  }

  lemma {:induction false} ShuffledByShuffled(bucket: seq<nat>, draws: seq<nat>)
    requires Distinct(bucket) && InReach(draws, |bucket|)
    ensures Shuffled(bucket, ShuffledBy(bucket, draws))
  {
    if draws != [] {
      var n := |draws| - 1;
      ShuffledByShuffled(bucket, draws[..n]);
      ShuffledSwap(bucket, ShuffledBy(bucket, draws[..n]), n, draws[n] + n);
    }
  }

  lemma ShuffledSwap(was: seq<nat>, bucket: seq<nat>, i: nat, j: nat)
    requires Shuffled(was, bucket) && i <= j < |bucket|
    ensures Shuffled(was, WithSwap(bucket, i, j))
  {
    var bucket' := WithSwap(bucket, i, j);
    forall x | x in bucket ensures x in bucket' {
      var k :| 0 <= k < |bucket| && bucket[k] == x;
      assert bucket'[if k == i then j else if k == j then i else k] == x;
    }
  }

  /** A full bucket in which entry 5 alone has the least last success and is drawn first: the
      place named holds entry 0 afterwards. */
  lemma NamedNotChosenExample(info: map<nat, Info>)
    requires forall id :: 0 <= id < 64 ==> id in info && info[id].nLastSuccess == if id == 5 then 1 else 2
    ensures var was, draws := seq(64, i => i), [5, 0, 0, 0];
            && NamedBy(info, was, was[5 := 0][0 := 5], draws, 0, 5) && was[5 := 0][0 := 5][5] == 0
  {
    var was: seq<nat> := seq(64, i => i);
    var bucket := was[5 := 0][0 := 5];
    assert [5, 0, 0, 0][..3] == [5, 0, 0] && [5, 0, 0][..2] == [5, 0] && [5, 0][..1] == [5] && [5][..0] == [];
    assert ShuffledBy(was, [5]) == bucket;
    assert ShuffledBy(was, [5, 0]) == bucket;
    assert ShuffledBy(was, [5, 0, 0]) == bucket;
  }

  /** The tried bucket was full: one of its entries goes back to the new buckets, to the one
      its own source gives if that has room, else to one the promoted entry came from. */
  ghost predicate ExchangedSomehow(h: Hashes, t: Tables, id: nat, k: nat, t': Tables)
    requires id in t.info && k < |t.tried|
  {
    exists bucket: seq<nat>, pos: nat, target: nat ::
      && ExchangeOk(h, t, id, k, bucket, pos, target)
      && t' == Exchanged(t, id, k, bucket, pos, target)
  }

  ghost predicate ExchangeOk(h: Hashes, t: Tables, id: nat, k: nat, bucket: seq<nat>, pos: nat, target: nat)
    requires id in t.info && k < |t.tried|
  {
    && Shuffled(t.tried[k], bucket) && Named(t.info, t.tried[k], bucket, pos)
    && pos < |bucket| && bucket[pos] in t.info && t.info[bucket[pos]].fInTried
    && |t.news| == NEW_BUCKET_COUNT && target < |t.news|
    && var home := h.NewBucket(t.nKey, t.info[bucket[pos]].addr.ip, t.info[bucket[pos]].source);
       if |Unlisted(t, id).news[home]| < NEW_BUCKET_SIZE then target == home else id in t.news[target]
  }

  ghost predicate GoodPost(h: Hashes, t: Tables, t': Tables, addr: Service, time: int)
    requires Inv(h, t)
  {
    if addr.ip !in t.addr || t.info[t.addr[addr.ip]].addr != addr then t' == t
    else
      var id := t.addr[addr.ip];
      var t1 := t.(info := t.info[id := Succeeded(t.info[id], time)]);
      if t.info[id].fInTried then t' == t1 else MadeTried(h, t1, id, t')
  }

  /** An entry has moved from the new buckets to its tried bucket. */
  ghost predicate MadeTried(h: Hashes, t: Tables, id: nat, t': Tables)
    requires id in t.info && |t.tried| == TRIED_BUCKET_COUNT
  {
    var k := h.TriedBucket(t.nKey, t.info[id].addr);
    if |t.tried[k]| < TRIED_BUCKET_SIZE then t' == Promoted(t, id, k) else ExchangedSomehow(h, t, id, k, t')
  }

  /** Attempt and Connected change the times of one entry only. */
  ghost predicate TouchPost(t: Tables, t': Tables, addr: Service, touched: Info -> Info) {
    if addr.ip !in t.addr || t.addr[addr.ip] !in t.info || t.info[t.addr[addr.ip]].addr != addr then t' == t
    else t' == t.(info := t.info[t.addr[addr.ip] := touched(t.info[t.addr[addr.ip]])])
  }

  function Attempted(e: Info, time: int): Info { e.(nLastTry := time, nAttempts := e.nAttempts + 1) }

  function ConnectedAt(e: Info, time: int): Info { if time - e.nTime > 20 * 60 then e.(nTime := time) else e }

  function GetAddrCount(size: nat): nat {
    var n := GETADDR_MAX_PCT * size / 100;
    if n > GETADDR_MAX then GETADDR_MAX else n
  }

  /** GetAddr shuffles the list and gives out the entries now at its front. */
  ghost predicate GetAddrPost(t: Tables, t': Tables, given: seq<Service>) {
    && t' == t.(info := t'.info, random := t'.random)
    && SameButPlaces(t.info, t'.info) && RandomOk(t'.info, t'.random) && |t'.random| == |t.random|
    && |given| == GetAddrCount(|t.random|)
    && forall i :: 0 <= i < |given| ==> i < |t'.random| && given[i] == t'.info[t'.random[i]].addr
  }

  datatype Op = Add(routable: bool, a: Announced, source: nat, now: int, penalty: int, isNew: bool)
              | Good(addr: Service, time: int)
              | Attempt(addr: Service, time: int)
              | Connected(addr: Service, time: int)
              | GetAddr(given: seq<Service>)

  ghost predicate Post(h: Hashes, t: Tables, op: Op, t': Tables)
    requires Inv(h, t)
  {
    match op
    case Add(routable, a, source, now, penalty, isNew) => AddPost(h, t, t', routable, a, source, now, penalty, isNew)
    case Good(addr, time) => GoodPost(h, t, t', addr, time)
    case Attempt(addr, time) => TouchPost(t, t', addr, e => Attempted(e, time))
    case Connected(addr, time) => TouchPost(t, t', addr, e => ConnectedAt(e, time))
    case GetAddr(given) => GetAddrPost(t, t', given)
  }

  // ---------- every operation keeps the invariant ----------

  ghost predicate SameEntry(e: Info, e': Info) {
    e'.addr == e.addr && e'.fInTried == e.fInTried && e'.nRefCount == e.nRefCount && e'.nRandomPos == e.nRandomPos
  }

  lemma TouchInv(h: Hashes, t: Tables, id: nat, e: Info)
    requires Inv(h, t) && id in t.info && SameEntry(t.info[id], e)
    ensures Inv(h, t.(info := t.info[id := e]))
  {
    var t' := t.(info := t.info[id := e]);
    assert forall j :: j in t.info ==> SameEntry(t.info[j], t'.info[j]);
    AddrKeeps(t.info, t'.info, t.addr, t.random);
    hide RandomOk, AddrOk, TriedOk, NewOk;
    ShapeKeepsInv(h, t, t', {});
  }

  lemma PlacedSomehowInv(h: Hashes, t: Tables, id: nat, b: nat, now: int, t': Tables)
    requires InvBut(h, t, {id}) && id in t.info && !t.info[id].fInTried && b < |t.news| && id !in t.news[b]
    requires t.info[id].nRefCount == |Holders(t.news, id)| < NEW_BUCKETS_PER_ADDRESS
    requires PlacedSomehow(t, id, b, now, t')
    ensures Inv(h, t')
  {
    hide InvBut, Placed, VictimOk;
    var victim: nat :| RoomOk(t, id, b, now, victim) && t' == Placed(t, id, b, victim);
    PlacedInv(h, t, id, b, victim);
  }

  lemma NewOkBut(info: map<nat, Info>, news: seq<set<nat>>, id: nat)
    requires NewOk(info, news, {}) && id in info
    ensures NewOk(info, news, {id}) && RefsOk(news, id, info[id])
  {
  }

  lemma AddKnownInv(h: Hashes, t: Tables, id: nat, e: Info, b: nat, now: int, t': Tables)
    requires Inv(h, t) && id in t.info && SameEntry(t.info[id], e) && !e.fInTried
    requires e.nRefCount != NEW_BUCKETS_PER_ADDRESS
    requires b < |t.news| && id !in t.news[b] && PlacedSomehow(t.(info := t.info[id := e]), id, b, now, t')
    ensures Inv(h, t')
  {
    hide RandomOk, AddrOk, TriedOk, NewOk;
    TouchInv(h, t, id, e);
    NewOkBut(t.info[id := e], t.news, id);
    PlacedSomehowInv(h, t.(info := t.info[id := e]), id, b, now, t');
  }

  lemma AddUnknownInv(h: Hashes, t: Tables, e: Info, b: nat, now: int, t': Tables)
    requires Inv(h, t) && e.addr.ip !in t.addr && b < |t.news| && PlacedSomehow(Created(t, e), t.nIdCount, b, now, t')
    ensures Inv(h, t')
  {
    hide RandomOk, AddrOk, TriedOk, NewOk;
    CreatedInv(h, t, e);
    assert t.nIdCount !in t.news[b] by { assert b !in Holders(t.news, t.nIdCount); }
    PlacedSomehowInv(h, Created(t, e), t.nIdCount, b, now, t');
  }

  lemma AddInv(h: Hashes, t: Tables, t': Tables, routable: bool, a: Announced, source: nat, now: int, penalty: int,
               isNew: bool)
    requires Inv(h, t) && AddPost(h, t, t', routable, a, source, now, penalty, isNew)
    ensures Inv(h, t')
  {
    assert |t.news| == NEW_BUCKET_COUNT;
    hide RandomOk, TriedOk, NewOk, PlacedSomehow, BothServices, Created;
    if routable {
      var b := h.NewBucket(t.nKey, a.addr.ip, source);
      if a.addr.ip in t.addr {
        var id := t.addr[a.addr.ip];
        var e := Refreshed(t.info[id], a, now, penalty);
        if t' == t.(info := t.info[id := e]) {
          TouchInv(h, t, id, e);
        } else {
          AddKnownInv(h, t, id, e, b, now, t');
        }
      } else {
        AddUnknownInv(h, t, Introduced(a, source, penalty), b, now, t');
      }
    }
  }

  lemma GoodInv(h: Hashes, t: Tables, t': Tables, addr: Service, time: int)
    requires Inv(h, t) && GoodPost(h, t, t', addr, time)
    ensures Inv(h, t')
  {
    AddrIs(h, t);
    TriedCount(h, t);
    hide Inv, InvBut, Promoted, ExchangedSomehow;
    if addr.ip in t.addr && t.info[t.addr[addr.ip]].addr == addr {
      var id := t.addr[addr.ip];
      var t1 := t.(info := t.info[id := Succeeded(t.info[id], time)]);
      TouchInv(h, t, id, t1.info[id]);
      if !t.info[id].fInTried { MadeTriedInv(h, t1, id, t'); }
    }
  }

  lemma TriedCount(h: Hashes, t: Tables)
    requires Inv(h, t)
    ensures |t.tried| == TRIED_BUCKET_COUNT
  {
    hide RandomOk, AddrOk, NewOk;
  }

  lemma MadeTriedInv(h: Hashes, t: Tables, id: nat, t': Tables)
    requires Inv(h, t) && id in t.info && !t.info[id].fInTried && |t.tried| == TRIED_BUCKET_COUNT
    requires MadeTried(h, t, id, t')
    ensures Inv(h, t')
  {
    hide Inv, InvBut, Promoted, ExchangedSomehow;
    if |t.tried[h.TriedBucket(t.nKey, t.info[id].addr)]| < TRIED_BUCKET_SIZE {
      PromotedInv(h, t, id);
    } else {
      ExchangedSomehowInv(h, t, id, t');
    }
  }

  lemma ExchangeRoom(t: Tables, id: nat, target: nat)
    requires NewOk(t.info, t.news, {}) && id in t.info && target < |t.news| && id in t.news[target]
    ensures |Unlisted(t, id).news[target]| < NEW_BUCKET_SIZE
  {
    assert |t.news[target] - {id}| < |t.news[target]|;
  }

  lemma ExchangedSomehowInv(h: Hashes, t: Tables, id: nat, t': Tables)
    requires Inv(h, t) && id in t.info && !t.info[id].fInTried
    requires ExchangedSomehow(h, t, id, h.TriedBucket(t.nKey, t.info[id].addr), t')
    ensures Inv(h, t')
  {
    var k := h.TriedBucket(t.nKey, t.info[id].addr);
    var bucket: seq<nat>, pos: nat, target: nat :|
      ExchangeOk(h, t, id, k, bucket, pos, target) && t' == Exchanged(t, id, k, bucket, pos, target);
    hide RandomOk, AddrOk, TriedOk, NewOk, Exchanged;
    if id in t.news[target] { ExchangeRoom(t, id, target); }
    ExchangedInv(h, t, id, bucket, pos, target);
  }

  lemma TouchPostInv(h: Hashes, t: Tables, t': Tables, addr: Service, touched: Info -> Info)
    requires Inv(h, t) && TouchPost(t, t', addr, touched) && forall e :: SameEntry(e, touched(e))
    ensures Inv(h, t')
  {
    hide RandomOk, AddrOk, TriedOk, NewOk;
    if t' != t { TouchInv(h, t, t.addr[addr.ip], touched(t.info[t.addr[addr.ip]])); }
  }

  lemma GetAddrInv(h: Hashes, t: Tables, t': Tables, given: seq<Service>)
    requires Inv(h, t) && GetAddrPost(t, t', given)
    ensures Inv(h, t')
  {
    hide RandomOk, AddrOk, TriedOk, NewOk;
    ShapeKeepsInv(h, t, t', {});
  }

  /** Every operation, with any outcome its post allows, keeps the invariant. */
  lemma PostInv(h: Hashes, t: Tables, op: Op, t': Tables)
    requires Inv(h, t) && Post(h, t, op, t')
    ensures Inv(h, t')
  {
    hide Inv, AddPost, GoodPost, TouchPost, GetAddrPost;
    match op
    case Add(routable, a, source, now, penalty, isNew) => AddInv(h, t, t', routable, a, source, now, penalty, isNew);
    case Good(addr, time) => GoodInv(h, t, t', addr, time);
    case Attempt(addr, time) => TouchPostInv(h, t, t', addr, e => Attempted(e, time));
    case Connected(addr, time) => TouchPostInv(h, t, t', addr, e => ConnectedAt(e, time));
    case GetAddr(given) => GetAddrInv(h, t, t', given);
  }

  /** A run: any operations in any order, each with any outcome its post allows. */
  ghost predicate IsRun(h: Hashes, states: seq<Tables>, ops: seq<Op>)
    requires |states| == |ops| + 1 && Inv(h, states[0])
    decreases |ops|
  {
    || ops == []
    || (&& Post(h, states[0], ops[0], states[1])
        && (PostInv(h, states[0], ops[0], states[1]); IsRun(h, states[1..], ops[1..])))
  }

  lemma {:induction false} RunInv(h: Hashes, states: seq<Tables>, ops: seq<Op>, n: nat)
    requires |states| == |ops| + 1 && Inv(h, states[0]) && IsRun(h, states, ops) && n <= |ops|
    ensures Inv(h, states[n])
    decreases n
  {
    hide Inv, Post;
    if n > 0 {
      PostInv(h, states[0], ops[0], states[1]);
      RunInv(h, states[1..], ops[1..], n - 1);
    }
  }

  // ---------- the recorded times ----------

  predicate TimeSound(op: Op) {
    (op.Good? ==> op.time > 0) && (op.Attempt? ==> op.time >= 0)
  }

  ghost predicate Timely(e: Info) {
    e.nLastTry >= 0 && e.nLastSuccess >= 0 && (e.fInTried ==> e.nLastSuccess != 0)
  }

  ghost predicate SameTimes(e: Info, e': Info) {
    e'.nLastTry == e.nLastTry && e'.nLastSuccess == e.nLastSuccess && (e'.fInTried ==> e.fInTried)
  }

  lemma TimesFollow(t: Tables, t': Tables)
    requires TimesOk(t) && forall id :: id in t'.info ==>
               Timely(t'.info[id]) || (id in t.info && SameTimes(t.info[id], t'.info[id]))
    ensures TimesOk(t')
  {
    forall id | id in t'.info ensures Timely(t'.info[id]) {
      if id in t.info { assert Timely(t.info[id]); }
    }
  }

  lemma PlacedTimes(t: Tables, id: nat, b: nat, now: int, t': Tables)
    requires TimesOk(t) && id in t.info && b < |t.news| && PlacedSomehow(t, id, b, now, t')
    ensures TimesOk(t')
  {
    hide CanDrop, DropFrom, TimesOk, VictimOk;
    var v: nat :| RoomOk(t, id, b, now, v) && t' == Placed(t, id, b, v);
    BumpedTimes(t, id);
    if |t.news[b]| == NEW_BUCKET_SIZE {
      DropTimes(Bumped(t, id), b, v);
      InfoTimes(DropFrom(Bumped(t, id), b, v), t');
    } else {
      InfoTimes(Bumped(t, id), t');
    }
  }

  lemma BumpedTimes(t: Tables, id: nat)
    requires TimesOk(t) && id in t.info
    ensures TimesOk(Bumped(t, id))
  {
  }

  lemma InfoTimes(t: Tables, t': Tables)
    requires TimesOk(t) && t'.info == t.info
    ensures TimesOk(t')
  {
  }

  lemma DropTimes(t: Tables, b: nat, id: nat)
    requires TimesOk(t) && CanDrop(t, b, id)
    ensures TimesOk(DropFrom(t, b, id))
  {
    DropFrame(t, b, id);
    DropVictimTimes(t, b, id);
    hide DropFrom, RandomOk;
    TimesFollow(t, DropFrom(t, b, id));
  }

  lemma DropVictimTimes(t: Tables, b: nat, id: nat)
    requires CanDrop(t, b, id)
    ensures var t' := DropFrom(t, b, id); id in t'.info ==> SameTimes(t.info[id], t'.info[id])
  {
    if t.info[id].nRefCount == 1 { DropForgettingIs(t, b, id); }
  }

  lemma ExchangedTimes(h: Hashes, t: Tables, id: nat, k: nat, t': Tables)
    requires id in t.info && !t.info[id].fInTried && k < |t.tried| && ExchangedSomehow(h, t, id, k, t')
    ensures t'.info.Keys == t.info.Keys
    ensures forall j :: j in t.info && j != id ==> SameTimes(t.info[j], t'.info[j])
    ensures t'.info[id].nLastTry == t.info[id].nLastTry && t'.info[id].nLastSuccess == t.info[id].nLastSuccess
  {
    var bucket: seq<nat>, pos: nat, target: nat :|
      ExchangeOk(h, t, id, k, bucket, pos, target) && t' == Exchanged(t, id, k, bucket, pos, target);
    hide Exchanged;
    ExchangedInfo(t, id, k, bucket, pos, target);
  }

  lemma GoodTimes(h: Hashes, t: Tables, t': Tables, addr: Service, time: int)
    requires Inv(h, t) && TimesOk(t) && GoodPost(h, t, t', addr, time) && time > 0
    ensures TimesOk(t')
  {
    hide RandomOk, NewOk, Promoted, Exchanged, ExchangeOk;
    if t' != t {
      var id := t.addr[addr.ip];
      var t1 := t.(info := t.info[id := Succeeded(t.info[id], time)]);
      var k := h.TriedBucket(t.nKey, addr);
      if t' != t1 {
        if |t.tried[k]| < TRIED_BUCKET_SIZE {
          PromotedInfo(t1, id, k);
        } else {
          ExchangedTimes(h, t1, id, k, t');
        }
      }
      TimesFollow(t, t');
    }
  }

  /** With positive times passed to Good and none negative to Attempt, the recorded times
      stay what the consistency check asks for. */
  lemma PostTimes(h: Hashes, t: Tables, op: Op, t': Tables)
    requires Inv(h, t) && TimesOk(t) && Post(h, t, op, t') && TimeSound(op)
    ensures TimesOk(t')
  {
    hide Inv, RandomOk;
    match op
    case Add(routable, a, source, now, penalty, isNew) =>
      hide GoodPost;
      AddTimes(h, t, t', routable, a, source, now, penalty, isNew);
    case Good(addr, time) => GoodTimes(h, t, t', addr, time);
    case Attempt(addr, time) => TimesFollow(t, t');
    case Connected(addr, time) => TimesFollow(t, t');
    case GetAddr(given) => TimesFollow(t, t');
  }

  /** In a run with such times the recorded times are sound all along. */
  lemma {:induction false} RunTimes(h: Hashes, states: seq<Tables>, ops: seq<Op>, n: nat)
    requires |states| == |ops| + 1 && Inv(h, states[0]) && IsRun(h, states, ops) && n <= |ops|
    requires TimesOk(states[0]) && forall i :: 0 <= i < |ops| ==> TimeSound(ops[i])
    ensures TimesOk(states[n])
    decreases n
  {
    hide Inv, Post, TimesOk, TimeSound;
    if n > 0 {
      PostInv(h, states[0], ops[0], states[1]);
      PostTimes(h, states[0], ops[0], states[1]);
      RunTimes(h, states[1..], ops[1..], n - 1);
    }
  }

  lemma RefreshedTimes(t: Tables, id: nat, e: Info)
    requires TimesOk(t) && id in t.info && SameTimes(t.info[id], e)
    ensures TimesOk(t.(info := t.info[id := e]))
  {
    TimesFollow(t, t.(info := t.info[id := e]));
  }

  lemma CreatedTimes(t: Tables, e: Info)
    requires TimesOk(t) && e.nLastTry == 0 && e.nLastSuccess == 0
    ensures TimesOk(Created(t, e))
  {
  }

  lemma AddTimes(h: Hashes, t: Tables, t': Tables, routable: bool, a: Announced, source: nat, now: int, penalty: int,
                 isNew: bool)
    requires Inv(h, t) && TimesOk(t) && AddPost(h, t, t', routable, a, source, now, penalty, isNew)
    ensures TimesOk(t')
  {
    assert |t.news| == NEW_BUCKET_COUNT;
    hide RandomOk, TriedOk, NewOk, PlacedSomehow, TimesOk;
    if routable {
      var b := h.NewBucket(t.nKey, a.addr.ip, source);
      if a.addr.ip in t.addr {
        var id := t.addr[a.addr.ip];
        var t1 := t.(info := t.info[id := Refreshed(t.info[id], a, now, penalty)]);
        RefreshedTimes(t, id, t1.info[id]);
        if t' != t1 { PlacedTimes(t1, id, b, now, t'); }
      } else {
        var t1 := Created(t, Introduced(a, source, penalty));
        CreatedTimes(t, Introduced(a, source, penalty));
        PlacedTimes(t1, t.nIdCount, b, now, t');
      }
    }
  }

  // ---------- what is known, and how much ----------

  /** Good never changes the set of known addresses. */
  lemma GoodConserves(h: Hashes, t: Tables, t': Tables, addr: Service, time: int)
    requires Inv(h, t) && GoodPost(h, t, t', addr, time)
    ensures t'.info.Keys == t.info.Keys && t'.addr == t.addr && t'.random == t.random
  {
    hide RandomOk, NewOk, ExchangedSomehow;
    if addr.ip in t.addr && t.info[t.addr[addr.ip]].addr == addr {
      var id := t.addr[addr.ip];
      var t1 := t.(info := t.info[id := Succeeded(t.info[id], time)]);
      var k := h.TriedBucket(t.nKey, addr);
      if !t.info[id].fInTried && |t.tried[k]| >= TRIED_BUCKET_SIZE { ExchangedConserves(h, t1, id, k, t'); }
    }
  }

  lemma ExchangedConserves(h: Hashes, t: Tables, id: nat, k: nat, t': Tables)
    requires id in t.info && !t.info[id].fInTried && k < |t.tried| && ExchangedSomehow(h, t, id, k, t')
    ensures t'.info.Keys == t.info.Keys && t'.addr == t.addr && t'.random == t.random
  {
    var bucket: seq<nat>, pos: nat, target: nat :|
      ExchangeOk(h, t, id, k, bucket, pos, target) && t' == Exchanged(t, id, k, bucket, pos, target);
    hide Exchanged;
    ExchangedInfo(t, id, k, bucket, pos, target);
  }

  /** The entries of t are still there in t', but for one that was not tried; no address
      but `more` is new. */
  ghost predicate ForgetsAtMost(t: Tables, t': Tables, victim: Option<nat>, more: set<nat>) {
    && (forall id :: id in t.info && Some(id) != victim ==> id in t'.info && SameRecord(t.info[id], t'.info[id]))
    && (victim.Some? && victim.value in t.info ==> !t.info[victim.value].fInTried)
    && t'.addr.Keys <= t.addr.Keys + more
  }

  ghost predicate SameRecord(e: Info, e': Info) { e'.addr == e.addr && e'.fInTried == e.fInTried }

  lemma ForgetsThrough(t: Tables, t1: Tables, t2: Tables, victim: Option<nat>, more: set<nat>)
    requires ForgetsAtMost(t, t1, None, more) && ForgetsAtMost(t1, t2, victim, {})
    ensures ForgetsAtMost(t, t2, victim, more)
  {
  }

  lemma DropConserves(t: Tables, b: nat, id: nat)
    requires CanDrop(t, b, id) && !t.info[id].fInTried
    ensures ForgetsAtMost(t, DropFrom(t, b, id), Some(id), {})
  {
    if t.info[id].nRefCount == 1 {
      hide RandomOk;
      DropForgettingIs(t, b, id);
      hide DropFrom;
    }
  }

  lemma BumpedConserves(t: Tables, id: nat)
    requires id in t.info
    ensures ForgetsAtMost(t, Bumped(t, id), None, {})
  {
  }

  lemma PlacedFullConserves(t: Tables, id: nat, b: nat, v: nat)
    requires NewOk(t.info, t.news, {id}) && id in t.info && b < |t.news| && |t.news[b]| == NEW_BUCKET_SIZE
    requires CanDrop(Bumped(t, id), b, v)
    ensures ForgetsAtMost(t, Placed(t, id, b, v), Some(v), {})
  {
    var t1 := Bumped(t, id);
    assert !t1.info[v].fInTried;
    BumpedConserves(t, id);
    hide RandomOk, NewOk, CanDrop, Bumped;
    DropConserves(t1, b, v);
    var t2, t' := DropFrom(t1, b, v), Placed(t, id, b, v);
    assert t'.info == t2.info && t'.addr == t2.addr;
    hide DropFrom, Placed;
    ForgetsThrough(t, t1, t2, Some(v), {});
  }

  lemma CanDropIs(t: Tables, id: nat, b: nat, v: nat)
    requires id in t.info && CanDrop(Bumped(t, id), b, v)
    ensures v in t.news[b]
  {
  }

  lemma PlacedConserves(t: Tables, id: nat, b: nat, now: int, t': Tables) returns (victim: Option<nat>)
    requires NewOk(t.info, t.news, {id}) && id in t.info && b < |t.news| && PlacedSomehow(t, id, b, now, t')
    ensures ForgetsAtMost(t, t', victim, {}) && (victim.Some? ==> victim.value in t.news[b])
  {
    hide NewOk, CanDrop, DropFrom, ForgetsAtMost, VictimOk;
    var v: nat :| RoomOk(t, id, b, now, v) && t' == Placed(t, id, b, v);
    if |t.news[b]| == NEW_BUCKET_SIZE {
      PlacedFullConserves(t, id, b, v);
      CanDropIs(t, id, b, v);
      victim := Some(v);
    } else {
      BumpedConserves(t, id);
      SameForgets(t, Bumped(t, id), t');
      victim := None;
    }
  }

  lemma SameForgets(t: Tables, t1: Tables, t2: Tables)
    requires ForgetsAtMost(t, t1, None, {}) && t2.info == t1.info && t2.addr == t1.addr
    ensures ForgetsAtMost(t, t2, None, {})
  {
  }

  lemma AddConservesOld(t: Tables, t': Tables, id: nat, e: Info, b: nat, now: int) returns (victim: Option<nat>)
    requires NewOk(t.info, t.news, {}) && id in t.info && SameEntry(t.info[id], e) && b < |t.news|
    requires id !in t.news[b] && PlacedSomehow(t.(info := t.info[id := e]), id, b, now, t')
    ensures ForgetsAtMost(t, t', victim, {}) && StillThere(t', id, e.addr)
  {
    var t1 := t.(info := t.info[id := e]);
    hide PlacedSomehow;
    assert NewOk(t1.info, t.news, {id}) by { hide RefsOk; }
    assert ForgetsAtMost(t, t1, None, {}) by { hide NewOk; }
    victim := PlacedConserves(t1, id, b, now, t');
    hide *;
    ForgetsThrough(t, t1, t', victim, {});
    NotForgotten(t1, t', victim, id);
  }

  lemma AddConservesNew(t: Tables, t': Tables, e: Info, b: nat, now: int) returns (victim: Option<nat>)
    requires NewOk(t.info, t.news, {}) && t.nIdCount !in t.info && b < |t.news|
    requires t.nIdCount !in t.news[b] && PlacedSomehow(Created(t, e), t.nIdCount, b, now, t')
    ensures ForgetsAtMost(t, t', victim, {e.addr.ip}) && StillThere(t', t.nIdCount, e.addr)
  {
    var t1 := Created(t, e);
    hide PlacedSomehow, NewOk;
    CreatedNewOk(t, e);
    assert ForgetsAtMost(t, t1, None, {e.addr.ip});
    assert t1.news == t.news && t.nIdCount in t1.info && t1.info[t.nIdCount].addr == e.addr;
    victim := PlacedConserves(t1, t.nIdCount, b, now, t');
    hide *;
    ForgetsThrough(t, t1, t', victim, {e.addr.ip});
    NotForgotten(t1, t', victim, t.nIdCount);
  }

  ghost predicate StillThere(t: Tables, id: nat, addr: Service) { id in t.info && t.info[id].addr == addr }

  lemma NotForgotten(t: Tables, t': Tables, victim: Option<nat>, id: nat)
    requires ForgetsAtMost(t, t', victim, {}) && id in t.info && victim != Some(id)
    ensures StillThere(t', id, t.info[id].addr)
  {
  }

  lemma ThereIsKnown(h: Hashes, t: Tables, id: nat, addr: Service)
    requires Inv(h, t) && StillThere(t, id, addr)
    ensures addr.ip in t.addr
  {
  }

  lemma RefreshedConserves(t: Tables, id: nat, e: Info, ip: nat)
    requires id in t.info && SameEntry(t.info[id], e)
    ensures ForgetsAtMost(t, t.(info := t.info[id := e]), None, {ip})
  {
  }

  lemma NoneForgotten(t: Tables, ip: nat)
    ensures ForgetsAtMost(t, t, None, {ip})
  {
  }

  lemma ForgetsMore(t: Tables, t': Tables, victim: Option<nat>, ip: nat)
    requires ForgetsAtMost(t, t', victim, {})
    ensures ForgetsAtMost(t, t', victim, {ip})
  {
  }

  /** Add makes its own address known if that is routable, and no other; it forgets at most one
      entry, not a tried one. */
  lemma AddConserves(h: Hashes, t: Tables, t': Tables, routable: bool, a: Announced, source: nat, now: int,
                     penalty: int, isNew: bool)
    returns (victim: Option<nat>)
    requires Inv(h, t) && AddPost(h, t, t', routable, a, source, now, penalty, isNew)
    ensures ForgetsAtMost(t, t', victim, {a.addr.ip})
    ensures routable ==> a.addr.ip in t'.addr
    ensures isNew <==> routable && a.addr.ip !in t.addr
  {
    AddInv(h, t, t', routable, a, source, now, penalty, isNew);
    NewIdUnlisted(h, t);
    AddrIs(h, t);
    hide Inv, InvBut, PlacedSomehow, Created, ForgetsAtMost, NewOk, StillThere, Refreshed, Introduced;
    NoneForgotten(t, a.addr.ip);
    victim := None;
    if routable {
      var b := h.NewBucket(t.nKey, a.addr.ip, source);
      if a.addr.ip in t.addr {
        var id := t.addr[a.addr.ip];
        var e := Refreshed(t.info[id], a, now, penalty);
        RefreshedSame(t.info[id], a, now, penalty);
        RefreshedConserves(t, id, e, a.addr.ip);
        if t' != t.(info := t.info[id := e]) {
          victim := AddConservesOld(t, t', id, e, b, now);
          ForgetsMore(t, t', victim, a.addr.ip);
          ThereIsKnown(h, t', id, e.addr);
        }
      } else {
        IntroducedAddr(a, source, penalty);
        victim := AddConservesNew(t, t', Introduced(a, source, penalty), b, now);
        ThereIsKnown(h, t', t.nIdCount, a.addr);
      }
    }
  }

  lemma RefreshedSame(e: Info, a: Announced, now: int, penalty: int)
    ensures SameEntry(e, Refreshed(e, a, now, penalty))
  {
    hide BothServices;
  }

  lemma IntroducedAddr(a: Announced, source: nat, penalty: int)
    ensures Introduced(a, source, penalty).addr == a.addr
  {
  }

  lemma NewIdUnlisted(h: Hashes, t: Tables)
    requires Inv(h, t)
    ensures t.nIdCount !in t.info && NewOk(t.info, t.news, {}) && |t.news| == NEW_BUCKET_COUNT
    ensures forall b :: 0 <= b < |t.news| ==> t.nIdCount !in t.news[b]
  {
    hide RandomOk, AddrOk, TriedOk, RefsOk;
    forall b | 0 <= b < |t.news| ensures t.nIdCount !in t.news[b] {
      assert t.nIdCount in t.news[b] ==> t.nIdCount in t.info;
    }
  }

  lemma AddrIs(h: Hashes, t: Tables)
    requires Inv(h, t)
    ensures forall ip :: ip in t.addr ==> t.addr[ip] in t.info && t.info[t.addr[ip]].addr.ip == ip
  {
    hide RandomOk, TriedOk, NewOk;
  }

  ghost function Union(sets: seq<set<nat>>): set<nat> {
    if sets == [] then {} else sets[0] + Union(sets[1..])
  }

  lemma {:induction false} UnionCard(sets: seq<set<nat>>, most: nat)
    requires forall i :: 0 <= i < |sets| ==> |sets[i]| <= most
    ensures |Union(sets)| <= |sets| * most
    ensures forall i :: 0 <= i < |sets| ==> sets[i] <= Union(sets)
    decreases |sets|
  {
    if sets != [] {
      UnionCard(sets[1..], most);
      assert |sets[0] + Union(sets[1..])| <= |sets[0]| + |Union(sets[1..])|;
      assert |sets| * most == most + |sets[1..]| * most;
    }
  }

  lemma {:induction false} SetOfCard(s: seq<nat>)
    ensures |SetOf(s)| <= |s|
    ensures Distinct(s) ==> |SetOf(s)| == |s|
    decreases |s|
  {
    if s == [] {
      assert SetOf(s) == {};
    } else {
      SetOfCard(s[1..]);
      assert SetOf(s) == {s[0]} + SetOf(s[1..]);
      assert Distinct(s) ==> Distinct(s[1..]) && s[0] !in s[1..];
    }
  }

  lemma TriedIdsCard(h: Hashes, key: nat, info: map<nat, Info>, tried: seq<seq<nat>>)
    requires TriedOk(h, key, info, tried)
    ensures |Ids(info, true)| <= 256 * 64
  {
    var sets := seq(|tried|, b requires 0 <= b < |tried| => SetOf(tried[b]));
    forall b | 0 <= b < |sets| ensures |sets[b]| <= TRIED_BUCKET_SIZE { SetOfCard(tried[b]); }
    UnionCard(sets, TRIED_BUCKET_SIZE);
    forall id | id in Ids(info, true) ensures id in Union(sets) {
      assert id in sets[h.TriedBucket(key, info[id].addr)];
    }
    SubsetCard(Ids(info, true), Union(sets));
  }

  lemma NewIdsCard(t: Tables)
    requires NewOk(t.info, t.news, {})
    ensures |Ids(t.info, false)| <= 256 * 64
  {
    UnionCard(t.news, NEW_BUCKET_SIZE);
    NewIdsHeld(t);
    SubsetCard(Ids(t.info, false), Union(t.news));
  }

  lemma RandomCard(info: map<nat, Info>, random: seq<nat>)
    requires RandomOk(info, random)
    ensures |random| == |info| && Distinct(random)
  {
    SetOfCard(random);
    assert forall i :: 0 <= i < |random| ==> info[random[i]].nRandomPos == i;
    assert SetOf(random) == info.Keys;
  }

  /** The table never knows more than 2 * 256 * 64 addresses. */
  lemma Capacity(h: Hashes, t: Tables)
    requires Inv(h, t)
    ensures |t.random| == t.nTried + t.nNew == |t.info| <= 2 * 256 * 64
  {
    TriedIdsCard(h, t.nKey, t.info, t.tried);
    NewIdsCard(t);
    RandomCard(t.info, t.random);
    assert t.info.Keys == Ids(t.info, true) + Ids(t.info, false);
    hide RandomOk, AddrOk, TriedOk, NewOk;
  }

  lemma NewIdsHeld(t: Tables)
    requires NewOk(t.info, t.news, {})
    ensures Ids(t.info, false) <= Union(t.news)
  {
    UnionCard(t.news, NEW_BUCKET_SIZE);
    forall id | id in Ids(t.info, false) ensures id in Union(t.news) {
      assert RefsOk(t.news, id, t.info[id]);
      assert Holders(t.news, id) != {};
      var b :| b in Holders(t.news, id);
      assert id in t.news[b];
    }
  }

  lemma GivenKnown(t: Tables, t': Tables, given: seq<Service>, i: nat)
    requires AddrOk(t.info, t.addr) && GetAddrPost(t, t', given) && i < |given|
    ensures given[i].ip in t.addr && t.addr[given[i].ip] == t'.random[i] && t.info[t.addr[given[i].ip]].addr == given[i]
  {
    assert t'.random[i] in t'.info;
  }

  /** GetAddr gives out exactly so many known addresses, all different. */
  lemma GetAddrGives(h: Hashes, t: Tables, t': Tables, given: seq<Service>)
    requires Inv(h, t) && GetAddrPost(t, t', given)
    ensures |given| == if 23 * |t.addr| / 100 > 2500 then 2500 else 23 * |t.addr| / 100
    ensures forall i :: 0 <= i < |given| ==> given[i].ip in t.addr && t.info[t.addr[given[i].ip]].addr == given[i]
    ensures forall i, j :: 0 <= i < j < |given| ==> given[i].ip != given[j].ip
  {
    RandomCard(t.info, t.random);
    RandomCard(t'.info, t'.random);
    AddrCard(t.info, t.addr);
    forall i | 0 <= i < |given|
      ensures given[i].ip in t.addr && t.addr[given[i].ip] == t'.random[i]
      ensures t.info[t.addr[given[i].ip]].addr == given[i]
    {
      GivenKnown(t, t', given, i);
    }
    hide RandomOk, AddrOk, TriedOk, NewOk;
  }

  lemma AddrCard(info: map<nat, Info>, addr: map<nat, nat>)
    requires AddrOk(info, addr)
    ensures |addr| == |info|
    decreases |addr|
  {
    if addr == map[] {
      assert info == map[];
    } else {
      var ip :| ip in addr;
      var info', addr' := info - {addr[ip]}, addr - {ip};
      assert AddrOk(info', addr');
      AddrCard(info', addr');
    }
  }
}
