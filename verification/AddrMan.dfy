/** The address manager as an object: its methods change the tables in place, step by step
    as the program does, with every random choice left open. */
module AddrMan {
  import opened Basics
  import opened Options
  import opened AddrTables
  import opened AddrOps

  const TRIED_ENTRIES_INSPECT_ON_EVICT := 4

  /** Any value below n. */
  method GetRandInt(n: nat) returns (r: nat)
    requires n > 0
    ensures r < n
  {
    r :| r < n;
  }

  /** The least element, where an iteration over an ordered set begins. */
  method Least(s: set<nat>) returns (least: nat)
    requires s != {}
    ensures least in s && forall x :: x in s ==> least <= x
  {
    least :| least in s;
    var rest := s - {least};
    while rest != {}
      invariant rest < s && least in s && forall x :: x in s && x !in rest ==> least <= x
      decreases rest
    {
      var x :| x in rest;
      if x < least { least := x; }
      rest := rest - {x};
    }
  }

  /** The m-th place from `start` on, around the end. */
  function Wrapped(m: nat, start: nat, count: nat): (b: nat)
    requires count > 0
    ensures b < count
  {
    (m + start) % count
  }

  class Manager {
    const h: Hashes
    var nKey: nat
    var nIdCount: nat
    var mapInfo: map<nat, Info>
    var mapAddr: map<nat, nat>
    var vRandom: seq<nat>
    var nTried: int
    var vvTried: seq<seq<nat>>
    var nNew: int
    var vvNew: seq<set<nat>>

    ghost function S(): Tables
      reads this
    {
      Tables(nKey, nIdCount, mapInfo, mapAddr, vRandom, nTried, vvTried, nNew, vvNew)
    }

    constructor (h: Hashes, key: nat)
      ensures this.h == h && S() == Empty(key) && Inv(h, S()) && TimesOk(S())
    {
      this.h := h;
      nKey, nIdCount := key, 0;
      mapInfo, mapAddr, vRandom := map[], map[], [];
      nTried, nNew := 0, 0;
      vvTried := seq(TRIED_BUCKET_COUNT, _ => []);
      vvNew := seq(NEW_BUCKET_COUNT, _ => {});
      new;
      EmptyInv(h, key);
    }

    method Find(ip: nat) returns (id: Option<nat>)
      requires AddrOk(mapInfo, mapAddr)
      ensures id == if ip in mapAddr then Some(mapAddr[ip]) else None
    {
      if ip !in mapAddr { return None; }
      if mapAddr[ip] in mapInfo { return Some(mapAddr[ip]); }
      return None;
    }

    method Create(e: Info) returns (nId: nat)
      modifies this
      ensures nId == old(nIdCount) && S() == Created(old(S()), e).(nNew := old(nNew))
    {
      nId := nIdCount;
      nIdCount := nIdCount + 1;
      mapInfo := mapInfo[nId := e.(nRefCount := 0, fInTried := false, nRandomPos := |vRandom|)];
      mapAddr := mapAddr[e.addr.ip := nId];
      vRandom := vRandom + [nId];
    }

    method SwapRandom(nRndPos1: nat, nRndPos2: nat)
      requires RandomOk(mapInfo, vRandom) && nRndPos1 < |vRandom| && nRndPos2 < |vRandom|
      modifies `mapInfo, `vRandom
      ensures S() == Swapped(old(S()), nRndPos1, nRndPos2)
    {
      if nRndPos1 == nRndPos2 { return; }
      var nId1, nId2 := vRandom[nRndPos1], vRandom[nRndPos2];
      assert nId1 in mapInfo && nId2 in mapInfo;
      mapInfo := mapInfo[nId1 := mapInfo[nId1].(nRandomPos := nRndPos2)];
      mapInfo := mapInfo[nId2 := mapInfo[nId2].(nRandomPos := nRndPos1)];
      vRandom := vRandom[nRndPos1 := nId2];
      vRandom := vRandom[nRndPos2 := nId1];
    }

    /** Shuffles up to four entries of a tried bucket to its front and names one place: the one
        that the entry of least last success among them was swapped out of. */
    method SelectTried(nKBucket: nat) returns (nPos: nat, draws: seq<nat>, ghost m: nat)
      requires nKBucket < |vvTried| && vvTried[nKBucket] != [] && Distinct(vvTried[nKBucket])
      requires forall id :: id in vvTried[nKBucket] ==> id in mapInfo
      modifies `vvTried
      ensures |vvTried| == |old(vvTried)| && vvTried == old(vvTried)[nKBucket := vvTried[nKBucket]]
      ensures Shuffled(old(vvTried)[nKBucket], vvTried[nKBucket]) && nPos < |vvTried[nKBucket]|
      ensures NamedBy(mapInfo, old(vvTried)[nKBucket], vvTried[nKBucket], draws, m, nPos)
      ensures vvTried[nKBucket][nPos] == vvTried[nKBucket][m] <==> nPos == m
    {
      ghost var was := vvTried[nKBucket];
      var nOldest: Option<nat> := None;
      nPos, draws, m := 0, [], 0;
      var i := 0;
      while i < TRIED_ENTRIES_INSPECT_ON_EVICT && i < |vvTried[nKBucket]|
        invariant |vvTried| == |old(vvTried)| && vvTried == old(vvTried)[nKBucket := vvTried[nKBucket]]
        invariant Choosing(mapInfo, was, vvTried[nKBucket], draws, i, nOldest, m, nPos)
        decreases TRIED_ENTRIES_INSPECT_ON_EVICT - i
      {
        var bucket := vvTried[nKBucket];
        var r := GetRandInt(|bucket| - i);
        var nTemp := bucket[r + i];
        ChoosingStep(mapInfo, was, bucket, draws, i, nOldest, m, nPos, r);
        vvTried := vvTried[nKBucket := bucket[r + i := bucket[i]][i := nTemp]];
        assert vvTried[nKBucket] == WithSwap(bucket, i, r + i);
        draws := draws + [r];
        if nOldest.None? || mapInfo[nTemp].nLastSuccess < mapInfo[nOldest.value].nLastSuccess {
          nOldest := Some(nTemp);
          nPos := r + i;
          m := i;
        }
        i := i + 1;
      }
      ShuffledByShuffled(was, draws);
      NamedIsChosen(mapInfo, was, vvTried[nKBucket], draws, m, nPos);
    }

    /** Takes an entry out of every index but the buckets. */
    method Forget(id: nat)
      requires id in mapInfo && RandomOk(mapInfo, vRandom)
      modifies this
      ensures S() == Forgotten(old(S()), id)
    {
      ghost var was := S();
      assert vRandom[|vRandom| - 1] in mapInfo && id == vRandom[mapInfo[id].nRandomPos];
      SwapRandom(mapInfo[id].nRandomPos, |vRandom| - 1);
      ghost var t1 := S();
      assert t1.info[id].addr == was.info[id].addr && |t1.random| == |was.random| && t1.nNew == was.nNew;
      hide RandomOk, Swapped;
      vRandom := vRandom[..|vRandom| - 1];
      mapAddr := mapAddr - {mapInfo[id].addr.ip};
      mapInfo := mapInfo - {id};
      nNew := nNew - 1;
    }

    /** Takes the victim out of the bucket, and out of the tables with its last reference. */
    method Drop(nUBucket: nat, id: nat)
      requires CanDrop(S(), nUBucket, id)
      modifies this
      ensures S() == DropFrom(old(S()), nUBucket, id)
    {
      ghost var t := S();
      var e := mapInfo[id];
      mapInfo := mapInfo[id := e.(nRefCount := e.nRefCount - 1)];
      assert RandomOk(mapInfo, vRandom) by { AddrKeepsRandom(t.info, mapInfo, vRandom); }
      ghost var t1 := t.(info := t.info[id := e.(nRefCount := e.nRefCount - 1)]);
      assert S() == t1;
      if mapInfo[id].nRefCount == 0 {
        Forget(id);
        assert e.nRefCount == 1 && S() == Forgotten(t1, id);
      }
      ghost var t2 := S();
      assert t2 == if e.nRefCount == 1 then Forgotten(t1, id) else t1;
      assert t2.news == t.news by { hide RandomOk, Swapped; }
      hide RandomOk, Forgotten;
      vvNew := vvNew[nUBucket := vvNew[nUBucket] - {id}];
    }

    /** Removes one entry from a new bucket: the first terrible one (result 0), or else the
        one with the oldest time among up to four chosen at random (result 1). */
    method ShrinkNew(nUBucket: nat, now: int) returns (r: nat, n: seq<nat>, ghost victim: nat)
      requires nUBucket < |vvNew| && vvNew[nUBucket] != {} && RandomOk(mapInfo, vRandom)
      requires forall id :: id in vvNew[nUBucket] ==> id in mapInfo
      modifies this
      ensures CanDrop(old(S()), nUBucket, victim) && S() == DropFrom(old(S()), nUBucket, victim)
      ensures r == if SomeTerrible(old(mapInfo), old(vvNew)[nUBucket], now) then 0 else 1
      ensures r == 0 ==> FirstTerrible(old(mapInfo), old(vvNew)[nUBucket], now, victim)
      ensures r == 1 ==>
                DrawsOk(n, |old(vvNew)[nUBucket]|) && OldestDrawn(old(mapInfo), old(vvNew)[nUBucket], n, victim)
    {
      n := [];
      var vNew := vvNew[nUBucket];
      assert forall id :: id in vNew ==> CanDrop(S(), nUBucket, id);
      hide RandomOk;
      var rest := vNew;
      while rest != {}
        invariant S() == old(S()) && rest <= vNew
        invariant forall id, j :: id in vNew && id !in rest && j in rest ==> id < j
        invariant forall id :: id in vNew && id !in rest ==> !IsTerrible(mapInfo[id], now)
        decreases rest
      {
        var it := Least(rest);
        if IsTerrible(mapInfo[it], now) {
          victim := it;
          Drop(nUBucket, it);
          return 0, n, victim;
        }
        rest := rest - {it};
      }
      var nOldest;
      nOldest, n := OldestOfFour(vNew);
      victim := nOldest;
      Drop(nUBucket, nOldest);
      return 1, n, victim;
    }

    /** The entry of least time among those at four random places of the bucket. */
    method OldestOfFour(vNew: set<nat>) returns (oldest: nat, n: seq<nat>)
      requires vNew != {} && forall id :: id in vNew ==> id in mapInfo
      ensures DrawsOk(n, |vNew|) && OldestDrawn(mapInfo, vNew, n, oldest)
    {
      var n0 := GetRandInt(|vNew|);
      var n1 := GetRandInt(|vNew|);
      var n2 := GetRandInt(|vNew|);
      var n3 := GetRandInt(|vNew|);
      n := [n0, n1, n2, n3];
      assert DrawsOk(n, |vNew|) && n[0] == n0;
      hide *;
      var nI := 0;
      var nOldest: Option<nat> := None;
      var rest := vNew;
      LookingStart(mapInfo, vNew, n);
      while rest != {}
        invariant Looking(mapInfo, vNew, rest, n, nI, nOldest)
        decreases rest
      {
        var it := Least(rest);
        LookingStep(mapInfo, vNew, rest, n, nI, nOldest, it);
        if nI == n[0] || nI == n[1] || nI == n[2] || nI == n[3] {
          if nOldest.None? || mapInfo[it].nTime < mapInfo[nOldest.value].nTime { nOldest := Some(it); }
        }
        nI := nI + 1;
        rest := rest - {it};
      }
      LookingEnd(mapInfo, vNew, n, nI, nOldest);
      oldest := nOldest.value;
    }

    /** Takes the entry out of every new bucket. */
    method Unlist(nId: nat)
      requires nId in mapInfo && mapInfo[nId].nRefCount == |Holders(vvNew, nId)|
      modifies `vvNew, `mapInfo
      ensures S() == Unlisted(old(S()), nId)
    {
      ghost var news, e := vvNew, mapInfo[nId];
      var n := 0;
      while n < |vvNew|
        invariant n <= |vvNew| && vvNew == UnlistedTo(news, nId, n)
        invariant mapInfo == old(mapInfo)[nId := e.(nRefCount := |Holders(vvNew, nId)|)]
      {
        UnlistedStep(news, nId, n);
        if nId in vvNew[n] {
          vvNew := vvNew[n := vvNew[n] - {nId}];
          mapInfo := mapInfo[nId := mapInfo[nId].(nRefCount := mapInfo[nId].nRefCount - 1)];
        }
        n := n + 1;
      }
      assert Holders(vvNew, nId) == {};
    }

    method MakeTried(nId: nat, nOrigin: nat)
      requires Inv(h, S()) && nOrigin < |vvNew| && nId in vvNew[nOrigin]
      modifies this
      ensures MadeTried(h, old(S()), nId, S())
    {
      ghost var was := S();
      assert RefsOk(vvNew, nId, mapInfo[nId]) && !mapInfo[nId].fInTried && |vvTried| == TRIED_BUCKET_COUNT;
      hide RandomOk, AddrOk, TriedOk, NewOk;
      Unlist(nId);
      nNew := nNew - 1;
      assert S() == Unlisted(was, nId).(nNew := was.nNew - 1) && |Unlisted(was, nId).tried| == |was.tried|;
      assert mapInfo[nId].addr == was.info[nId].addr && vvTried == was.tried;
      hide Exchanged, Promoted, Unlisted, ExchangedSomehow;
      var nKBucket := h.TriedBucket(nKey, mapInfo[nId].addr);
      if |vvTried[nKBucket]| < TRIED_BUCKET_SIZE {
        PushTried(nId, nKBucket, was);
      } else {
        Evict(nId, nOrigin, nKBucket, was);
      }
    }

    /** The first case of MakeTried, when the tried bucket has room. */
    method PushTried(nId: nat, nKBucket: nat, ghost was: Tables)
      requires nId in was.info && nKBucket < |was.tried| && S() == Unlisted(was, nId).(nNew := was.nNew - 1)
      modifies this
      ensures S() == Promoted(was, nId, nKBucket)
    {
      vvTried := vvTried[nKBucket := vvTried[nKBucket] + [nId]];
      nTried := nTried + 1;
      mapInfo := mapInfo[nId := mapInfo[nId].(fInTried := true)];
    }

    /** The second case of MakeTried, when the tried bucket is full. */
    method Evict(nId: nat, nOrigin: nat, nKBucket: nat, ghost was: Tables)
      requires Inv(h, was) && nId in was.info && !was.info[nId].fInTried && nOrigin < |was.news|
      requires nId in was.news[nOrigin]
      requires nKBucket == h.TriedBucket(was.nKey, was.info[nId].addr) && |was.tried[nKBucket]| >= TRIED_BUCKET_SIZE
      requires S() == Unlisted(was, nId).(nNew := was.nNew - 1)
      modifies this
      ensures ExchangedSomehow(h, was, nId, nKBucket, S())
    {
      assert |was.news| == NEW_BUCKET_COUNT;
      hide RandomOk, AddrOk, NewOk, Unlisted, Named, ExchangedSomehow;
      UnlistedSame(was, nId);
      var nPos := NameTried(nKBucket, was.info);
      ghost var nOld := vvTried[nKBucket][nPos];
      assert nOld in was.tried[nKBucket] && nOld in was.info && was.info[nOld].fInTried;
      assert S() == Unlisted(was, nId).(nNew := was.nNew - 1, tried := was.tried[nKBucket := vvTried[nKBucket]]);
      PutBack(nId, nOrigin, nKBucket, nPos, was);
    }

    /** The named entry goes to the new bucket its own source gives if that has room, else to
        the one the promoted entry came from. */
    method PutBack(nId: nat, nOrigin: nat, nKBucket: nat, nPos: nat, ghost was: Tables)
      requires nId in was.info && nKBucket < |was.tried| == |vvTried|
      requires |was.news| == NEW_BUCKET_COUNT && nOrigin < |was.news| && nId in was.news[nOrigin]
      requires Shuffled(was.tried[nKBucket], vvTried[nKBucket])
      requires Named(was.info, was.tried[nKBucket], vvTried[nKBucket], nPos)
      requires nPos < |vvTried[nKBucket]| && vvTried[nKBucket][nPos] in was.info
      requires was.info[vvTried[nKBucket][nPos]].fInTried
      requires S() == Unlisted(was, nId).(nNew := was.nNew - 1, tried := was.tried[nKBucket := vvTried[nKBucket]])
      modifies this
      ensures ExchangedSomehow(h, was, nId, nKBucket, S())
    {
      hide Unlisted, Exchanged, Named, Shuffled;
      UnlistedSame(was, nId);
      var bucket := vvTried[nKBucket];
      var nOld := bucket[nPos];
      var nUBucket := h.NewBucket(nKey, mapInfo[nOld].addr.ip, mapInfo[nOld].source);
      var target := if |vvNew[nUBucket]| < NEW_BUCKET_SIZE then nUBucket else nOrigin;
      assert ExchangeOk(h, was, nId, nKBucket, bucket, nPos, target);
      Exchange(nId, nKBucket, nPos, target, was);
    }

    method NameTried(nKBucket: nat, ghost info: map<nat, Info>) returns (nPos: nat)
      requires nKBucket < |vvTried| && vvTried[nKBucket] != [] && Distinct(vvTried[nKBucket])
      requires forall id :: id in vvTried[nKBucket] ==> id in mapInfo
      requires forall id :: id in mapInfo ==> id in info && info[id].nLastSuccess == mapInfo[id].nLastSuccess
      modifies `vvTried
      ensures |vvTried| == |old(vvTried)| && vvTried == old(vvTried)[nKBucket := vvTried[nKBucket]]
      ensures Shuffled(old(vvTried)[nKBucket], vvTried[nKBucket]) && nPos < |vvTried[nKBucket]|
      ensures Named(info, old(vvTried)[nKBucket], vvTried[nKBucket], nPos)
    {
      hide Shuffled, NamedBy, Named;
      var draws; ghost var m, was := 0, vvTried[nKBucket];
      nPos, draws, m := SelectTried(nKBucket);
      NamedAnyway(info, mapInfo, was, vvTried[nKBucket], draws, m, nPos);
    }

    /** The chosen entry leaves its tried bucket for a new one, and the promoted one takes its
        place. */
    method Exchange(nId: nat, nKBucket: nat, nPos: nat, target: nat, ghost was: Tables)
      requires nId in was.info && nKBucket < |was.tried| && |vvTried| == |was.tried| && target < |was.news|
      requires nPos < |vvTried[nKBucket]| && vvTried[nKBucket][nPos] in was.info
      requires S() == Unlisted(was, nId).(nNew := was.nNew - 1, tried := was.tried[nKBucket := vvTried[nKBucket]])
      modifies this
      ensures S() == Exchanged(was, nId, nKBucket, old(vvTried)[nKBucket], nPos, target)
    {
      var bucket := vvTried[nKBucket];
      var nOld := bucket[nPos];
      mapInfo := mapInfo[nOld := mapInfo[nOld].(fInTried := false, nRefCount := 1)];
      vvNew := vvNew[target := vvNew[target] + {nOld}];
      nNew := nNew + 1;
      vvTried := vvTried[nKBucket := bucket[nPos := nId]];
      mapInfo := mapInfo[nId := mapInfo[nId].(fInTried := true)];
    }

    method Good(addr: Service, nTime: int)
      requires Inv(h, S())
      modifies this
      ensures Post(h, old(S()), Op.Good(addr, nTime), S()) && Inv(h, S())
    {
      ghost var was := S();
      GoodUnchecked(addr, nTime);
      PostInv(h, was, Op.Good(addr, nTime), S());
    }

    method GoodUnchecked(addr: Service, nTime: int)
      requires Inv(h, S())
      modifies this
      ensures GoodPost(h, old(S()), S(), addr, nTime)
    {
      ghost var was := S();
      assert |vvTried| == TRIED_BUCKET_COUNT && AddrOk(mapInfo, mapAddr);
      hide Inv, InvBut, MadeTried;
      var found := Find(addr.ip);
      if found.None? || mapInfo[found.value].addr != addr { return; }
      var nId := found.value;
      mapInfo := mapInfo[nId := Succeeded(mapInfo[nId], nTime)];
      ghost var t1 := was.(info := was.info[nId := Succeeded(was.info[nId], nTime)]);
      assert S() == t1;
      TouchInv(h, was, nId, t1.info[nId]);
      hide AddrOk;
      if mapInfo[nId].fInTried { return; }
      MoveToTried(nId);
    }

    method MoveToTried(nId: nat)
      requires Inv(h, S()) && nId in mapInfo && !mapInfo[nId].fInTried
      modifies this
      ensures |old(S()).tried| == TRIED_BUCKET_COUNT && MadeTried(h, old(S()), nId, S())
    {
      var nUBucket := BucketHolding(nId);
      MakeTried(nId, nUBucket);
    }

    /** Finds a new bucket that holds the entry, starting at a random one.  There is one, so
        that the program's way out for "something bad happened" is never taken. */
    method BucketHolding(nId: nat) returns (nB: nat)
      requires Inv(h, S()) && nId in mapInfo && !mapInfo[nId].fInTried
      ensures nB < |vvNew| && nId in vvNew[nB]
    {
      hide Inv, InvBut, Wrapped;
      BucketsThere(h, S());
      var nRnd := GetRandInt(|vvNew|);
      var n := 0;
      ghost var m := InSomeBucket(h, S(), nId, nRnd);
      while n < |vvNew|
        invariant n <= m
      {
        nB := Wrapped(n, nRnd, |vvNew|);
        if nId in vvNew[nB] { return nB; }
        n := n + 1;
      }
      assert false;
    }

    // ---------- the other operations ----------

    /** Each reference an entry has makes one more half as likely. */
    method WinsDraw(nRefCount: int) returns (won: bool)
      ensures nRefCount <= 0 ==> won
    {
      var nFactor, n := 1, 0;
      while n < nRefCount
        invariant nFactor >= 1 && (n == 0 ==> nFactor == 1) && (n > 0 ==> n <= nRefCount)
      {
        nFactor := nFactor * 2;
        n := n + 1;
      }
      won := true;
      if nFactor > 1 {
        var r := GetRandInt(nFactor);
        won := r == 0;
      }
    }

    /** One more reference, from a bucket that may have to make room. */
    method AddRef(nId: nat, nUBucket: nat, now: int)
      requires InvBut(h, S(), {nId}) && nId in mapInfo && nUBucket < |vvNew| && nId !in vvNew[nUBucket]
      modifies this
      ensures PlacedSomehow(old(S()), nId, nUBucket, now, S())
    {
      ghost var t, t1, victim: nat := S(), Bumped(S(), nId), 0;
      BumpRef(nId);
      hide *;
      BumpedInv(h, t, nId);
      DropFacts(h, t1, nUBucket, {nId});
      if |vvNew[nUBucket]| == NEW_BUCKET_SIZE { victim := MakeRoom(nUBucket, now); }
      InsertNew(nId, nUBucket, t, victim);
    }

    method BumpRef(nId: nat)
      requires nId in mapInfo
      modifies `mapInfo
      ensures S() == Bumped(old(S()), nId) && vvNew == Bumped(old(S()), nId).news
    {
      mapInfo := mapInfo[nId := mapInfo[nId].(nRefCount := mapInfo[nId].nRefCount + 1)];
    }

    method InsertNew(nId: nat, nUBucket: nat, ghost t: Tables, ghost victim: nat)
      requires nId in t.info && nUBucket < |t.news|
      requires |t.news[nUBucket]| == NEW_BUCKET_SIZE ==> CanDrop(Bumped(t, nId), nUBucket, victim)
      requires S() == if |t.news[nUBucket]| == NEW_BUCKET_SIZE then DropFrom(Bumped(t, nId), nUBucket, victim)
                      else Bumped(t, nId)
      requires |vvNew| == |t.news|
      modifies `vvNew
      ensures S() == Placed(t, nId, nUBucket, victim)
    {
      hide CanDrop, DropFrom, Bumped;
      vvNew := vvNew[nUBucket := vvNew[nUBucket] + {nId}];
    }

    method MakeRoom(nUBucket: nat, now: int) returns (ghost victim: nat)
      requires nUBucket < |vvNew| && vvNew[nUBucket] != {} && RandomOk(mapInfo, vRandom)
      requires forall id :: id in vvNew[nUBucket] ==> id in mapInfo
      modifies this
      ensures CanDrop(old(S()), nUBucket, victim) && S() == DropFrom(old(S()), nUBucket, victim)
      ensures |vvNew| == |old(vvNew)|
      ensures VictimOk(old(mapInfo), old(vvNew)[nUBucket], victim, now)
    {
      var r, n;
      ghost var t := S();
      hide CanDrop, DropFrom, DrawsOk, OldestDrawn, SomeTerrible, FirstTerrible;
      r, n, victim := ShrinkNew(nUBucket, now);
      DropFrame(t, nUBucket, victim);
    }

    method Add(routable: bool, a: Announced, source: nat, now: int, penalty: int) returns (fNew: bool)
      requires Inv(h, S())
      modifies this
      ensures Post(h, old(S()), Op.Add(routable, a, source, now, penalty, fNew), S()) && Inv(h, S())
    {
      ghost var was := S();
      fNew := AddUnchecked(routable, a, source, now, penalty);
      PostInv(h, was, Op.Add(routable, a, source, now, penalty, fNew), S());
    }

    method AddUnchecked(routable: bool, a: Announced, source: nat, now: int, penalty: int) returns (fNew: bool)
      requires Inv(h, S())
      modifies this
      ensures AddPost(h, old(S()), S(), routable, a, source, now, penalty, fNew)
    {
      if !routable { return false; }
      assert AddrOk(mapInfo, mapAddr) && |vvNew| == NEW_BUCKET_COUNT;
      hide Inv, InvBut, PlacedSomehow;
      var found := Find(a.addr.ip);
      if found.Some? {
        AddKnown(found.value, a, source, now, penalty);
        fNew := false;
      } else {
        AddUnknown(a, source, now, penalty);
        fNew := true;
      }
    }

    /** Add, of an address that is in the tables. */
    method AddKnown(nId: nat, a: Announced, source: nat, now: int, penalty: int)
      requires Inv(h, S()) && nId in mapInfo && |vvNew| == NEW_BUCKET_COUNT
      modifies this
      ensures var t := old(S());
              var t1 := t.(info := t.info[nId := Refreshed(t.info[nId], a, now, penalty)]);
              var b := h.NewBucket(t.nKey, a.addr.ip, source);
              S() == t1 || (MayList(t1.info[nId], a) && nId !in t1.news[b] && PlacedSomehow(t1, nId, b, now, S()))
    {
      ghost var t := S();
      hide PlacedSomehow, Inv, InvBut, Refreshed;
      var pinfo := Refresh(mapInfo[nId], a, now, penalty);
      mapInfo := mapInfo[nId := pinfo];
      ghost var t1 := t.(info := t.info[nId := pinfo]);
      assert S() == t1;
      if a.nTime == 0 || (pinfo.nTime != 0 && a.nTime <= pinfo.nTime) { return; }
      if pinfo.fInTried { return; }
      if pinfo.nRefCount == NEW_BUCKETS_PER_ADDRESS { return; }
      var won := WinsDraw(pinfo.nRefCount);
      if !won { return; }
      TouchInv(h, t, nId, pinfo);
      InvButOne(h, t1, nId);
      var nUBucket := h.NewBucket(nKey, a.addr.ip, source);
      if nId !in vvNew[nUBucket] { AddRef(nId, nUBucket, now); }
    }

    /** What hearing of an address again does to its entry. */
    method Refresh(was: Info, a: Announced, now: int, penalty: int) returns (pinfo: Info)
      ensures pinfo == Refreshed(was, a, now, penalty) && SameEntry(was, pinfo)
    {
      hide BothServices;
      pinfo := was;
      var fCurrentlyOnline := now - a.nTime < 24 * 60 * 60;
      var nUpdateInterval := if fCurrentlyOnline then 60 * 60 else 24 * 60 * 60;
      if a.nTime != 0 && (pinfo.nTime == 0 || pinfo.nTime < a.nTime - nUpdateInterval - penalty) {
        pinfo := pinfo.(nTime := Max(0, a.nTime - penalty));
      }
      pinfo := pinfo.(nServices := BothServices(pinfo.nServices, a.nServices));
    }

    /** Add, of an address that is not. */
    method AddUnknown(a: Announced, source: nat, now: int, penalty: int)
      requires Inv(h, S()) && a.addr.ip !in mapAddr && |vvNew| == NEW_BUCKET_COUNT
      modifies this
      ensures PlacedSomehow(Created(old(S()), Introduced(a, source, penalty)), old(nIdCount),
                            h.NewBucket(old(nKey), a.addr.ip, source), now, S())
    {
      ghost var t, e := S(), Introduced(a, source, penalty);
      hide RandomOk, AddrOk, TriedOk, NewOk, PlacedSomehow;
      CreatedInv(h, t, e);
      var nId := Create(Info(a.addr, a.nServices, a.nTime, 0, source, 0, 0, 0, false, -1));
      mapInfo := mapInfo[nId := mapInfo[nId].(nTime := Max(0, mapInfo[nId].nTime - penalty))];
      nNew := nNew + 1;
      assert S() == Created(t, e);
      assert nId == t.nIdCount && nKey == t.nKey && vvNew == t.news;
      hide Created;
      var nUBucket := h.NewBucket(nKey, a.addr.ip, source);
      assert nId !in vvNew[nUBucket] by { assert nUBucket !in Holders(vvNew, nId); }
      AddRef(nId, nUBucket, now);
    }

    method Attempt(addr: Service, nTime: int)
      requires Inv(h, S())
      modifies this
      ensures Post(h, old(S()), Op.Attempt(addr, nTime), S()) && Inv(h, S())
    {
      ghost var was := S();
      AttemptUnchecked(addr, nTime);
      PostInv(h, was, Op.Attempt(addr, nTime), S());
    }

    method AttemptUnchecked(addr: Service, nTime: int)
      requires AddrOk(mapInfo, mapAddr)
      modifies `mapInfo
      ensures TouchPost(old(S()), S(), addr, e => Attempted(e, nTime))
    {
      var found := Find(addr.ip);
      if found.None? || mapInfo[found.value].addr != addr { return; }
      var e := mapInfo[found.value];
      mapInfo := mapInfo[found.value := e.(nLastTry := nTime, nAttempts := e.nAttempts + 1)];
    }

    method Connected(addr: Service, nTime: int)
      requires Inv(h, S())
      modifies this
      ensures Post(h, old(S()), Op.Connected(addr, nTime), S()) && Inv(h, S())
    {
      ghost var was := S();
      ConnectedUnchecked(addr, nTime);
      PostInv(h, was, Op.Connected(addr, nTime), S());
    }

    method ConnectedUnchecked(addr: Service, nTime: int)
      requires AddrOk(mapInfo, mapAddr)
      modifies `mapInfo
      ensures TouchPost(old(S()), S(), addr, e => ConnectedAt(e, nTime))
    {
      var found := Find(addr.ip);
      if found.None? || mapInfo[found.value].addr != addr { return; }
      var nUpdateInterval := 20 * 60;
      if nTime - mapInfo[found.value].nTime > nUpdateInterval {
        mapInfo := mapInfo[found.value := mapInfo[found.value].(nTime := nTime)];
      } else {
        assert mapInfo == mapInfo[found.value := mapInfo[found.value]];
      }
    }

    /** Brings a random one of the entries from place n on to place n. */
    method ShuffleStep(n: nat)
      requires RandomOk(mapInfo, vRandom) && n < |vRandom|
      modifies `mapInfo, `vRandom
      ensures ShuffledFrom(old(mapInfo), old(vRandom), mapInfo, vRandom, n)
    {
      hide Swapped, RandomOk, ShuffledFrom;
      var r := GetRandInt(|vRandom| - n);
      SwappedFrom(S(), n, r + n);
      SwapRandom(n, r + n);
    }

    method GetAddr() returns (vAddr: seq<Service>)
      requires Inv(h, S())
      modifies this
      ensures Post(h, old(S()), Op.GetAddr(vAddr), S()) && Inv(h, S())
    {
      ghost var was := S();
      assert RandomOk(mapInfo, vRandom);
      hide Inv, InvBut;
      vAddr := Shuffle();
      PostInv(h, was, Op.GetAddr(vAddr), S());
    }

    method Shuffle() returns (vAddr: seq<Service>)
      requires RandomOk(mapInfo, vRandom)
      modifies `mapInfo, `vRandom
      ensures GetAddrPost(old(S()), S(), vAddr)
    {
      ghost var was := mapInfo;
      vAddr := [];
      hide RandomOk;
      var nNodes := GETADDR_MAX_PCT * |vRandom| / 100;
      if nNodes > GETADDR_MAX { nNodes := GETADDR_MAX; }
      var n := 0;
      while n < nNodes
        invariant n <= nNodes <= |vRandom| == |old(vRandom)| && |vAddr| == n
        invariant SameButPlaces(was, mapInfo) && RandomOk(mapInfo, vRandom)
        invariant forall i :: 0 <= i < n ==> vRandom[i] in was && vAddr[i] == was[vRandom[i]].addr
      {
        ghost var info := mapInfo;
        ShuffleStep(n);
        SameButPlacesTrans(was, info, mapInfo);
        vAddr := vAddr + [mapInfo[vRandom[n]].addr];
        n := n + 1;
      }
    }
  }

  /** The new buckets after the first n of them have lost the entry. */
  function UnlistedTo(news: seq<set<nat>>, id: nat, n: nat): (r: seq<set<nat>>)
    ensures |r| == |news|
  {
    seq(|news|, b requires 0 <= b < |news| => if b < n then news[b] - {id} else news[b])
  }

  lemma UnlistedStep(news: seq<set<nat>>, id: nat, n: nat)
    requires n < |news|
    ensures var was := UnlistedTo(news, id, n);
            var now := UnlistedTo(news, id, n + 1);
            && now == (if id in was[n] then was[n := was[n] - {id}] else was)
            && |Holders(now, id)| == |Holders(was, id)| - if id in was[n] then 1 else 0
  {
    var was := UnlistedTo(news, id, n);
    if id in was[n] {
      HoldersDrop(was, n, id, id);
      assert n in Holders(was, id);
      assert UnlistedTo(news, id, n + 1) == was[n := was[n] - {id}];
    } else {
      assert news[n] - {id} == news[n];
      assert UnlistedTo(news, id, n + 1) == was;
    }
  }

  /** Among the places up to i, m is where the first of least last success was brought to. */
  ghost predicate Choosing(info: map<nat, Info>, was: seq<nat>, bucket: seq<nat>, draws: seq<nat>, i: nat,
                           nOldest: Option<nat>, m: nat, nPos: nat)
  {
    && i == |draws| && i <= 4 && InReach(draws, |was|)
    && bucket == ShuffledBy(was, draws) && Shuffled(was, bucket) && (forall id :: id in was ==> id in info)
    && if i == 0 then nOldest.None?
       else FirstLeast(info, bucket, i, m) && nOldest == Some(bucket[m]) && nPos == m + draws[m]
  }

  lemma ChoosingStep(info: map<nat, Info>, was: seq<nat>, bucket: seq<nat>, draws: seq<nat>, i: nat,
                     nOldest: Option<nat>, m: nat, nPos: nat, r: nat)
    requires Choosing(info, was, bucket, draws, i, nOldest, m, nPos) && Distinct(was) && i < 4 && r < |bucket| - i
    ensures bucket[r + i] in info && (nOldest.Some? ==> nOldest.value in info)
    ensures var nTemp, bucket', draws' := bucket[r + i], WithSwap(bucket, i, r + i), draws + [r];
            if nOldest.None? || info[nTemp].nLastSuccess < info[nOldest.value].nLastSuccess
            then Choosing(info, was, bucket', draws', i + 1, Some(nTemp), i, r + i)
            else Choosing(info, was, bucket', draws', i + 1, nOldest, m, nPos)
  {
    hide Shuffled, ShuffledBy, FirstLeast;
    var bucket', draws' := WithSwap(bucket, i, r + i), draws + [r];
    ShuffledKnown(info, was, bucket);
    ShuffledMore(was, draws, r);
    ShuffledSwap(was, bucket, i, r + i);
    ShuffledKnown(info, was, bucket');
    if i > 0 {
      FirstLeastMore(info, bucket, i, m, r + i);
      FirstLeastIs(info, bucket, i, m);
    } else {
      FirstLeastOne(info, bucket');
    }
  }

  lemma ShuffledKnown(info: map<nat, Info>, was: seq<nat>, bucket: seq<nat>)
    requires Shuffled(was, bucket) && forall id :: id in was ==> id in info
    ensures |bucket| == |was| && forall n :: 0 <= n < |bucket| ==> bucket[n] in info
  {
    assert forall n :: 0 <= n < |bucket| ==> bucket[n] in bucket;
  }

  lemma FirstLeastOne(info: map<nat, Info>, bucket: seq<nat>)
    requires bucket != [] && bucket[0] in info
    ensures FirstLeast(info, bucket, 1, 0)
  {
  }

  lemma FirstLeastIs(info: map<nat, Info>, bucket: seq<nat>, i: nat, m: nat)
    requires FirstLeast(info, bucket, i, m)
    ensures m < i <= |bucket| && bucket[m] in info
  {
  }

  lemma FirstLeastMore(info: map<nat, Info>, bucket: seq<nat>, i: nat, m: nat, j: nat)
    requires FirstLeast(info, bucket, i, m) && i <= j < |bucket| && bucket[j] in info
    ensures var bucket' := WithSwap(bucket, i, j);
            && bucket'[m] == bucket[m] && bucket[m] in info
            && FirstLeast(info, bucket', i + 1,
                          if info[bucket[j]].nLastSuccess < info[bucket[m]].nLastSuccess then i else m)
  {
    assert forall n :: 0 <= n < i ==> WithSwap(bucket, i, j)[n] == bucket[n];
  }

  /** What Evict reads of the tables after an entry has left the new buckets. */
  lemma UnlistedSame(t: Tables, id: nat)
    requires id in t.info
    ensures var t' := Unlisted(t, id);
            && t'.info.Keys == t.info.Keys && t'.tried == t.tried && t'.nKey == t.nKey && |t'.news| == |t.news|
            && forall j :: j in t.info ==>
                 && t'.info[j].addr == t.info[j].addr && t'.info[j].source == t.info[j].source
                 && t'.info[j].nLastSuccess == t.info[j].nLastSuccess
  {
  }

  lemma NamedAnyway(info: map<nat, Info>, info': map<nat, Info>, was: seq<nat>, bucket: seq<nat>, draws: seq<nat>,
                    m: nat, pos: nat)
    requires NamedBy(info', was, bucket, draws, m, pos)
    requires forall id :: id in info' ==> id in info && info[id].nLastSuccess == info'[id].nLastSuccess
    ensures Named(info, was, bucket, pos)
  {
    hide ShuffledBy;
    assert NamedBy(info, was, bucket, draws, m, pos);
  }

  lemma InFour(n: seq<nat>, i: nat)
    requires |n| == 4
    ensures i in n <==> i == n[0] || i == n[1] || i == n[2] || i == n[3]
  {
  }

  /** Of those before `rest` that were drawn, the oldest. */
  ghost predicate OldestSoFar(info: map<nat, Info>, vNew: set<nat>, rest: set<nat>, n: seq<nat>, oldest: Option<nat>) {
    match oldest
    case None => forall id :: id in vNew - rest ==> PlaceOf(vNew, id) !in n
    case Some(o) =>
      && o in vNew - rest && o in info && PlaceOf(vNew, o) in n
      && forall id :: id in vNew - rest && id in info && PlaceOf(vNew, id) in n ==> Older(info, o, id)
  }

  /** While the bucket is gone through in order, nI of its entries have been seen. */
  ghost predicate Looking(info: map<nat, Info>, vNew: set<nat>, rest: set<nat>, n: seq<nat>, nI: nat,
                          oldest: Option<nat>)
  {
    && |n| == 4 && rest <= vNew && nI + |rest| == |vNew| && (forall id :: id in vNew ==> id in info)
    && (forall id, j :: id in vNew && id !in rest && j in rest ==> id < j)
    && OldestSoFar(info, vNew, rest, n, oldest) && (nI > n[0] ==> oldest.Some?)
  }

  lemma LookingStart(info: map<nat, Info>, vNew: set<nat>, n: seq<nat>)
    requires |n| == 4 && forall id :: id in vNew ==> id in info
    ensures Looking(info, vNew, vNew, n, 0, None)
  {
  }

  lemma LookingStep(info: map<nat, Info>, vNew: set<nat>, rest: set<nat>, n: seq<nat>, nI: nat, oldest: Option<nat>,
                    it: nat)
    requires Looking(info, vNew, rest, n, nI, oldest) && it in rest && forall x :: x in rest ==> it <= x
    ensures |n| == 4 && it in info && (oldest.Some? ==> oldest.value in info)
    ensures var drawn := nI == n[0] || nI == n[1] || nI == n[2] || nI == n[3];
            var take := drawn && (oldest.None? || info[it].nTime < info[oldest.value].nTime);
            Looking(info, vNew, rest - {it}, n, nI + 1, if take then Some(it) else oldest)
  {
    hide OldestSoFar, PlaceOf;
    PlaceInOrder(vNew, rest, it);
    OldestStep(info, vNew, rest, n, oldest, it);
    InFour(n, nI);
    assert |rest - {it}| == |rest| - 1;
  }

  lemma LookingEnd(info: map<nat, Info>, vNew: set<nat>, n: seq<nat>, nI: nat, oldest: Option<nat>)
    requires Looking(info, vNew, {}, n, nI, oldest) && n[0] < |vNew|
    ensures oldest.Some? && OldestDrawn(info, vNew, n, oldest.value)
  {
    hide OldestSoFar, OldestDrawn;
    OldestEnd(info, vNew, n, oldest);
  }

  lemma OldestStep(info: map<nat, Info>, vNew: set<nat>, rest: set<nat>, n: seq<nat>, oldest: Option<nat>, it: nat)
    requires OldestSoFar(info, vNew, rest, n, oldest) && rest <= vNew && it in rest && it in info
    requires forall id, j :: id in vNew && id !in rest && j in rest ==> id < j
    ensures oldest.Some? ==> oldest.value in info
    ensures var take := PlaceOf(vNew, it) in n && (oldest.None? || info[it].nTime < info[oldest.value].nTime);
            OldestSoFar(info, vNew, rest - {it}, n, if take then Some(it) else oldest)
  {
    assert vNew - (rest - {it}) == (vNew - rest) + {it};
    hide PlaceOf;
  }

  lemma OldestEnd(info: map<nat, Info>, vNew: set<nat>, n: seq<nat>, oldest: Option<nat>)
    requires OldestSoFar(info, vNew, {}, n, oldest) && oldest.Some?
    ensures OldestDrawn(info, vNew, n, oldest.value)
  {
    assert vNew - {} == vNew;
    hide PlaceOf;
  }

  /** In an iteration in order, the next one's place is the number of those before. */
  lemma PlaceInOrder(vNew: set<nat>, rest: set<nat>, it: nat)
    requires rest <= vNew && it in rest && forall x :: x in rest ==> it <= x
    requires forall id, j :: id in vNew && id !in rest && j in rest ==> id < j
    ensures PlaceOf(vNew, it) == |vNew| - |rest|
  {
    assert (set y | y in vNew && y < it) == vNew - rest;
  }

  lemma AddrKeepsRandom(info: map<nat, Info>, info': map<nat, Info>, random: seq<nat>)
    requires RandomOk(info, random) && info.Keys == info'.Keys
    requires forall id :: id in info ==> info'[id].nRandomPos == info[id].nRandomPos
    ensures RandomOk(info', random)
  {
  }

  lemma InvButOne(h: Hashes, t: Tables, id: nat)
    requires Inv(h, t) && id in t.info
    ensures InvBut(h, t, {id})
  {
    hide RandomOk, AddrOk, TriedOk, RefsOk;
  }

  /** The same entries, and a shuffled list that may be in another order from place n on. */
  ghost predicate ShuffledFrom(info: map<nat, Info>, random: seq<nat>, info': map<nat, Info>, random': seq<nat>,
                               n: nat) {
    && SameButPlaces(info, info') && RandomOk(info', random') && |random'| == |random|
    && (n < |random| ==> random'[n] in info')
    && forall i :: 0 <= i < n <= |random| ==> random'[i] == random[i]
  }

  lemma SwappedFrom(t: Tables, n: nat, m: nat)
    requires RandomOk(t.info, t.random) && n <= m < |t.random|
    ensures var t' := Swapped(t, n, m); ShuffledFrom(t.info, t.random, t'.info, t'.random, n)
  {
    hide Swapped, SameButPlaces;
    SwappedRandomOk(t, n, m);
  }

  lemma SameButPlacesTrans(info: map<nat, Info>, info1: map<nat, Info>, info2: map<nat, Info>)
    requires SameButPlaces(info, info1) && SameButPlaces(info1, info2)
    ensures SameButPlaces(info, info2)
  {
  }

  lemma DropFacts(h: Hashes, t: Tables, b: nat, x: set<nat>)
    requires InvBut(h, t, x) && b < |t.news|
    ensures RandomOk(t.info, t.random) && forall id :: id in t.news[b] ==> id in t.info
  {
  }

  lemma BucketsThere(h: Hashes, t: Tables)
    requires Inv(h, t)
    ensures |t.news| == NEW_BUCKET_COUNT
  {
    hide RandomOk, AddrOk, TriedOk;
  }

  /** The search of Good cannot miss: an entry that is not tried is in some new bucket. */
  lemma InSomeBucket(h: Hashes, t: Tables, id: nat, start: nat) returns (m: nat)
    requires Inv(h, t) && id in t.info && !t.info[id].fInTried && start < |t.news|
    ensures m < |t.news| && id in t.news[Wrapped(m, start, |t.news|)]
  {
    assert RefsOk(t.news, id, t.info[id]);
    assert Holders(t.news, id) != {};
    var b :| b in Holders(t.news, id);
    m := if b >= start then b - start else b + |t.news| - start;
    assert Wrapped(m, start, |t.news|) == b;
  }
}
