/** Blocks whose parent is not known yet: the pool of orphans, the index by parent, and the
    draining of the pool when a parent arrives. */
module OrphanBlocks {
  import opened Basics
  import opened Options

  type Hash = nat

  datatype Orphan = Orphan(hashBlock: Hash, hashPrev: Hash)

  /** What becomes of a block that is offered: refused, or put into the block index and refused
      afterwards, or accepted. */
  datatype Verdict = Refused | Indexed | Accepted

  datatype Offer = Offer(hash: Hash, verdict: Verdict)

  /** The accepted blocks, in the order of the offers. */
  function AcceptedIn(log: seq<Offer>): seq<Hash> {
    if log == [] then []
    else AcceptedIn(log[..|log| - 1]) + if log[|log| - 1].verdict.Accepted? then [log[|log| - 1].hash] else []
  }

  ghost function HashesIn(log: seq<Offer>): set<Hash> { set o | o in log :: o.hash }

  /** The blocks of the log that are in the block index now. */
  ghost function IndexedBy(log: seq<Offer>): set<Hash> { set o | o in log && !o.verdict.Refused? :: o.hash }

  /** Those put into the index and refused afterwards. */
  ghost function UnfinishedBy(log: seq<Offer>): set<Hash> { set o | o in log && o.verdict.Indexed? :: o.hash }

  ghost predicate OnceEach(log: seq<Offer>) { forall i, j :: 0 <= i < j < |log| ==> log[i].hash != log[j].hash }

  lemma AcceptedMore(log: seq<Offer>, o: Offer)
    ensures AcceptedIn(log + [o]) == AcceptedIn(log) + if o.verdict.Accepted? then [o.hash] else []
    ensures HashesIn(log + [o]) == HashesIn(log) + {o.hash}
    ensures IndexedBy(log + [o]) == IndexedBy(log) + if o.verdict.Refused? then {} else {o.hash}
    ensures UnfinishedBy(log + [o]) == UnfinishedBy(log) + if o.verdict.Indexed? then {o.hash} else {}
  {
    assert (log + [o])[..|log|] == log;
  }

  lemma AcceptedNone()
    ensures AcceptedIn([]) == [] && HashesIn([]) == {} && IndexedBy([]) == {} && UnfinishedBy([]) == {}
    ensures SetOf<Hash>([]) == {}
  {
  }

  lemma {:induction false} AcceptedJoin(log: seq<Offer>, more: seq<Offer>)
    ensures AcceptedIn(log + more) == AcceptedIn(log) + AcceptedIn(more)
    ensures HashesIn(log + more) == HashesIn(log) + HashesIn(more)
    ensures IndexedBy(log + more) == IndexedBy(log) + IndexedBy(more)
    ensures UnfinishedBy(log + more) == UnfinishedBy(log) + UnfinishedBy(more)
    decreases |more|
  {
    hide *;
    AcceptedNone();
    if more == [] {
      assert log + more == log;
    } else {
      var n := |more| - 1;
      AcceptedJoin(log, more[..n]);
      AcceptedMore(log + more[..n], more[n]);
      AcceptedMore(more[..n], more[n]);
      assert more == more[..n] + [more[n]] && log + more == (log + more[..n]) + [more[n]];
    }
  }

  lemma {:induction false} AcceptedIs(log: seq<Offer>)
    ensures forall h :: h in AcceptedIn(log) <==> Offer(h, Accepted) in log
    ensures IndexedBy(log) == SetOf(AcceptedIn(log)) + UnfinishedBy(log) && IndexedBy(log) <= HashesIn(log)
    ensures |AcceptedIn(log)| <= |log|
  {
    hide *;
    AcceptedNone();
    if log != [] {
      var n := |log| - 1;
      AcceptedIs(log[..n]);
      AcceptedMore(log[..n], log[n]);
      assert log == log[..n] + [log[n]];
      SetOfMore(AcceptedIn(log[..n]), log[n].hash);
      assert AcceptedIn(log[..n]) + [] == AcceptedIn(log[..n]);
    }
  }

  lemma FirstIndexed(index: set<Hash>, log: seq<Offer>)
    requires log != [] && log[0].verdict.Accepted?
    ensures (index + {log[0].hash}) + IndexedBy(log) == index + IndexedBy(log)
  {
    assert log[0] in log;
  }

  lemma SetOfMore(s: seq<Hash>, h: Hash)
    ensures SetOf(s + [h]) == SetOf(s) + {h}
  {
  }

  /** The two indexes hold the same orphans, each once. */
  ghost predicate Inverse(orphans: map<Hash, Orphan>, byPrev: seq<Orphan>) {
    && (forall h :: h in orphans ==> orphans[h].hashBlock == h && orphans[h] in byPrev)
    && (forall o :: o in byPrev ==> o.hashBlock in orphans && orphans[o.hashBlock] == o)
    && forall i, j :: 0 <= i < j < |byPrev| ==> byPrev[i] != byPrev[j]
  }

  /** No orphan, and no orphan's parent, is in the block index. */
  ghost predicate ParentsMissing(orphans: map<Hash, Orphan>, index: set<Hash>) {
    forall h :: h in orphans ==> h !in index && orphans[h].hashPrev !in index
  }

  /** No orphan is in the block index, and the parents that are had been refused after they
      were put there. */
  ghost predicate Settled(orphans: map<Hash, Orphan>, index: set<Hash>, unfinished: set<Hash>) {
    && (forall h :: h in orphans ==> h !in index)
    && unfinished <= index
    && forall h :: h in orphans && orphans[h].hashPrev in index ==> orphans[h].hashPrev in unfinished
  }

  ghost predicate WaitsForOneOf(orphans: map<Hash, Orphan>, hashes: set<Hash>) {
    exists h :: h in orphans && orphans[h].hashPrev in hashes
  }

  /** No block is its own ancestor: parents rank below their children. */
  ghost predicate Ranked(orphans: map<Hash, Orphan>, rank: Hash -> nat) {
    forall h :: h in orphans ==> rank(orphans[h].hashPrev) < rank(h)
  }

  ghost predicate NoChild(orphans: map<Hash, Orphan>, hash: Hash) {
    forall h :: h in orphans ==> orphans[h].hashPrev != hash
  }

  /** The k-th ancestor, as far as the pool goes. */
  ghost function Ancestor(orphans: map<Hash, Orphan>, hash: Hash, k: nat): Hash
    decreases k
  {
    if k == 0 || hash !in orphans then hash else Ancestor(orphans, orphans[hash].hashPrev, k - 1)
  }

  /** The last ancestor in the pool. */
  ghost predicate RootOf(orphans: map<Hash, Orphan>, hash: Hash, root: Hash) {
    root in orphans && orphans[root].hashPrev !in orphans && exists k :: Ancestor(orphans, hash, k) == root
  }

  lemma {:induction false} AncestorNext(orphans: map<Hash, Orphan>, hash: Hash, k: nat)
    requires Ancestor(orphans, hash, k) in orphans
    ensures Ancestor(orphans, hash, k + 1) == orphans[Ancestor(orphans, hash, k)].hashPrev
    decreases k
  {
    if k > 0 && hash in orphans { AncestorNext(orphans, orphans[hash].hashPrev, k - 1); }
  }

  lemma {:induction false} AncestorStays(orphans: map<Hash, Orphan>, hash: Hash, j: nat, k: nat)
    requires Ancestor(orphans, hash, j) !in orphans && j <= k
    ensures Ancestor(orphans, hash, k) == Ancestor(orphans, hash, j)
    decreases j
  {
    if j > 0 && hash in orphans { AncestorStays(orphans, orphans[hash].hashPrev, j - 1, k - 1); }
  }

  /** An orphan has one root only. */
  lemma RootUnique(orphans: map<Hash, Orphan>, hash: Hash, root1: Hash, root2: Hash)
    requires RootOf(orphans, hash, root1) && RootOf(orphans, hash, root2)
    ensures root1 == root2
  {
    var j: nat :| Ancestor(orphans, hash, j) == root1;
    var k: nat :| Ancestor(orphans, hash, k) == root2;
    AncestorNext(orphans, hash, j);
    AncestorNext(orphans, hash, k);
    if j < k { AncestorStays(orphans, hash, j + 1, k); }
    if k < j { AncestorStays(orphans, hash, k + 1, j); }
  }

  lemma {:induction false} InverseCard(orphans: map<Hash, Orphan>, byPrev: seq<Orphan>)
    requires Inverse(orphans, byPrev)
    ensures |byPrev| == |orphans|
    decreases |byPrev|
  {
    if byPrev == [] {
      assert orphans == map[];
    } else {
      var n := |byPrev| - 1;
      RemoveInverse(orphans, byPrev, n);
      assert byPrev[..n] + byPrev[n + 1..] == byPrev[..n];
      InverseCard(orphans - {byPrev[n].hashBlock}, byPrev[..n]);
      assert byPrev[n] in byPrev;
    }
  }

  lemma RemoveInverse(orphans: map<Hash, Orphan>, byPrev: seq<Orphan>, i: nat)
    requires Inverse(orphans, byPrev) && i < |byPrev|
    ensures Inverse(orphans - {byPrev[i].hashBlock}, byPrev[..i] + byPrev[i + 1..])
  {
    assert byPrev[i] in byPrev;
    DropAt(byPrev, i);
  }

  lemma DropAt(s: seq<Orphan>, i: nat)
    requires i < |s| && forall j, k :: 0 <= j < k < |s| ==> s[j] != s[k]
    ensures var rest := s[..i] + s[i + 1..];
            && (forall p :: p in rest <==> p in s && p != s[i])
            && forall j, k :: 0 <= j < k < |rest| ==> rest[j] != rest[k]
  {
    var rest := s[..i] + s[i + 1..];
    assert forall k :: 0 <= k < |rest| ==> rest[k] == s[if k < i then k else k + 1];
    forall p | p in s && p != s[i] ensures p in rest {
      var k :| 0 <= k < |s| && s[k] == p;
      assert rest[if k < i then k else k - 1] == p;
    }
  }

  lemma InsertInverse(orphans: map<Hash, Orphan>, byPrev: seq<Orphan>, o: Orphan)
    requires Inverse(orphans, byPrev) && o.hashBlock !in orphans
    ensures Inverse(orphans[o.hashBlock := o], byPrev + [o])
  {
  }

  function WithoutPrev(byPrev: seq<Orphan>, hashPrev: Hash): seq<Orphan> {
    if byPrev == [] then []
    else if byPrev[0].hashPrev == hashPrev then WithoutPrev(byPrev[1..], hashPrev)
    else [byPrev[0]] + WithoutPrev(byPrev[1..], hashPrev)
  }

  lemma {:induction false} WithoutPrevIs(byPrev: seq<Orphan>, hashPrev: Hash)
    requires forall i, j :: 0 <= i < j < |byPrev| ==> byPrev[i] != byPrev[j]
    ensures var r := WithoutPrev(byPrev, hashPrev);
            && (forall o :: o in r <==> o in byPrev && o.hashPrev != hashPrev)
            && forall i, j :: 0 <= i < j < |r| ==> r[i] != r[j]
    decreases |byPrev|
  {
    if byPrev != [] {
      WithoutPrevIs(byPrev[1..], hashPrev);
      assert byPrev[0] !in byPrev[1..];
      assert byPrev == [byPrev[0]] + byPrev[1..];
    }
  }

  /** The orphans left when those of the given parents are gone. */
  ghost function WithoutParents(orphans: map<Hash, Orphan>, parents: set<Hash>): map<Hash, Orphan> {
    map h | h in orphans && orphans[h].hashPrev !in parents :: orphans[h]
  }

  ghost function WithoutParent(orphans: map<Hash, Orphan>, hashPrev: Hash): map<Hash, Orphan> {
    map h | h in orphans && orphans[h].hashPrev != hashPrev :: orphans[h]
  }

  /** One more orphan; if there were more than the limit, one that had no orphan child is
      gone. */
  ghost predicate OrphanAdded(orphans: map<Hash, Orphan>, orphans': map<Hash, Orphan>, o: Orphan, limit: nat) {
    if |orphans| <= limit then orphans' == orphans[o.hashBlock := o]
    else exists h :: h in orphans && NoChild(orphans, h) && orphans' == (orphans - {h})[o.hashBlock := o]
  }

  // ---------- one call of ProcessBlock ----------

  /** Every orphan that was offered came after its parent had been accepted. */
  ghost predicate ParentsFirst(orphans: map<Hash, Orphan>, log: seq<Offer>) {
    forall k :: 0 < k < |log| ==> log[k].hash in orphans && orphans[log[k].hash].hashPrev in AcceptedIn(log[..k])
  }

  /** The orphans that left are those of an accepted parent, and each of them was offered once,
      whatever came of it. */
  ghost predicate Drained(orphans: map<Hash, Orphan>, orphans': map<Hash, Orphan>, log: seq<Offer>) {
    && log != [] && OnceEach(log) && ParentsFirst(orphans, log)
    && orphans' == WithoutParents(orphans, SetOf(AcceptedIn(log)))
    && HashesIn(log) == {log[0].hash} + (orphans.Keys - orphans'.Keys)
  }

  /** What a call does to the pool and the index, given the blocks that were offered in it. */
  ghost predicate Processed(orphans: map<Hash, Orphan>, index: set<Hash>, orphans': map<Hash, Orphan>,
                            index': set<Hash>, o: Orphan, refused: bool, fFrom: bool, limit: nat, ok: bool,
                            log: seq<Offer>)
  {
    && index' == index + IndexedBy(log)
    && if o.hashBlock in index || o.hashBlock in orphans || refused then !ok && log == [] && orphans' == orphans
       else if o.hashPrev !in index then
         && ok && log == []
         && if fFrom then OrphanAdded(orphans, orphans', o, limit) else orphans' == orphans
       else
         && log != [] && log[0].hash == o.hashBlock && (ok <==> log[0].verdict.Accepted?)
         && if ok then Drained(orphans, orphans', log) else |log| == 1 && orphans' == orphans
  }

  /** Over all calls, the parents of orphans that are in the index are those refused after they
      were put there. */
  lemma ProcessedSettled(orphans: map<Hash, Orphan>, index: set<Hash>, orphans': map<Hash, Orphan>, index': set<Hash>,
                         o: Orphan, refused: bool, fFrom: bool, limit: nat, ok: bool, log: seq<Offer>,
                         unfinished: set<Hash>)
    requires Settled(orphans, index, unfinished)
    requires Processed(orphans, index, orphans', index', o, refused, fFrom, limit, ok, log)
    ensures Settled(orphans', index', unfinished + UnfinishedBy(log))
  {
    AcceptedIs(log);
    hide AcceptedIn;
    if log != [] {
      assert o.hashBlock !in orphans;
      if !ok { assert log == [log[0]] && IndexedBy(log) <= {o.hashBlock}; }
    }
  }

  lemma OneUnfinished(orphans: map<Hash, Orphan>, index: set<Hash>, orphans': map<Hash, Orphan>, index': set<Hash>,
                      o: Orphan, refused: bool, fFrom: bool, limit: nat, ok: bool, log: seq<Offer>)
    requires Processed(orphans, index, orphans', index', o, refused, fFrom, limit, ok, log)
    requires log == [Offer(o.hashBlock, Indexed)]
    ensures UnfinishedBy(log) == {o.hashBlock} && orphans' == orphans
  {
    AcceptedMore([], log[0]);
    AcceptedNone();
    assert [] + log == log;
    hide UnfinishedBy, IndexedBy, AcceptedIn, HashesIn;
  }

  lemma UnfinishedApart(log: seq<Offer>)
    requires OnceEach(log)
    ensures UnfinishedBy(log) !! SetOf(AcceptedIn(log))
  {
    AcceptedIs(log);
    hide AcceptedIn;
    forall h | h in UnfinishedBy(log) ensures h !in AcceptedIn(log) {
      var i :| 0 <= i < |log| && log[i] == Offer(h, Indexed);
    }
  }

  /** Those that wait for a block indexed and refused in the call have waited before it, and wait
      after it. */
  lemma SameWaiters(orphans: map<Hash, Orphan>, index: set<Hash>, orphans': map<Hash, Orphan>, index': set<Hash>,
                    o: Orphan, refused: bool, fFrom: bool, limit: nat, ok: bool, log: seq<Offer>)
    requires Processed(orphans, index, orphans', index', o, refused, fFrom, limit, ok, log)
    ensures WaitsForOneOf(orphans', UnfinishedBy(log)) <==> WaitsForOneOf(orphans, UnfinishedBy(log))
  {
    AcceptedNone();
    if log != [] && ok {
      UnfinishedApart(log);
      Kept(orphans, SetOf(AcceptedIn(log)), UnfinishedBy(log));
    }
    hide AcceptedIn, UnfinishedBy, IndexedBy, HashesIn, OnceEach, ParentsFirst, OrphanAdded, SetOf, WithoutParents;
  }

  lemma Kept(orphans: map<Hash, Orphan>, parents: set<Hash>, hashes: set<Hash>)
    requires parents !! hashes
    ensures WaitsForOneOf(WithoutParents(orphans, parents), hashes) <==> WaitsForOneOf(orphans, hashes)
  {
    if WaitsForOneOf(orphans, hashes) {
      var h :| h in orphans && orphans[h].hashPrev in hashes;
      assert h in WithoutParents(orphans, parents);
    }
  }

  /** Exactly when a call keeps parents missing: no orphan waited, before the call or after it, for
      a block that the call put into the index and refused. */
  lemma ParentsMissingIff(orphans: map<Hash, Orphan>, index: set<Hash>, orphans': map<Hash, Orphan>, index': set<Hash>,
                          o: Orphan, refused: bool, fFrom: bool, limit: nat, ok: bool, log: seq<Offer>)
    requires ParentsMissing(orphans, index)
    requires Processed(orphans, index, orphans', index', o, refused, fFrom, limit, ok, log)
    ensures ParentsMissing(orphans', index') <==> !WaitsForOneOf(orphans', UnfinishedBy(log))
    ensures ParentsMissing(orphans', index') <==> !WaitsForOneOf(orphans, UnfinishedBy(log))
    ensures log == [Offer(o.hashBlock, Indexed)] ==>
              (ParentsMissing(orphans', index') <==> NoChild(orphans, o.hashBlock))
  {
    if log == [Offer(o.hashBlock, Indexed)] {
      OneUnfinished(orphans, index, orphans', index', o, refused, fFrom, limit, ok, log);
    }
    ProcessedSettled(orphans, index, orphans', index', o, refused, fFrom, limit, ok, log, {});
    SameWaiters(orphans, index, orphans', index', o, refused, fFrom, limit, ok, log);
    AcceptedIs(log);
    hide Processed;
  }

  /** An orphan whose parent is already in the index is never offered: it leaves the pool only
      to make room for another. */
  lemma StrandedStays(orphans: map<Hash, Orphan>, index: set<Hash>, orphans': map<Hash, Orphan>, index': set<Hash>,
                      o: Orphan, refused: bool, fFrom: bool, limit: nat, ok: bool, log: seq<Offer>, h: Hash)
    requires forall g :: g in orphans ==> g !in index
    requires Processed(orphans, index, orphans', index', o, refused, fFrom, limit, ok, log)
    requires h in orphans && orphans[h].hashPrev in index
    ensures h !in HashesIn(log)
    ensures h in orphans' || (log == [] && |orphans| > limit && NoChild(orphans, h) && o.hashBlock in orphans')
  {
    AcceptedIs(log);
    hide AcceptedIn;
    if ok && log != [] {
      forall g | g in AcceptedIn(log) ensures g !in index { assert g in HashesIn(log); }
    }
  }

  /** A child that came before its parent stays behind when the parent is put into the index
      and then refused. */
  lemma RefusedParentExample(fFrom: bool, limit: nat)
    ensures var orphans, log := map[2 := Orphan(2, 1)], [Offer(1, Indexed)];
            && ParentsMissing(orphans, {0})
            && Processed(orphans, {0}, orphans, {0, 1}, Orphan(1, 0), false, fFrom, limit, false, log)
            && !ParentsMissing(orphans, {0, 1})
  {
    var log := [Offer(1, Indexed)];
    assert log[0] in log;
    assert IndexedBy(log) == {1};
    assert {0} + {1} == {0, 1};
    assert 2 in map[2 := Orphan(2, 1)];
  }

  // ---------- the loops ----------

  /** While the children of one block are offered. */
  ghost predicate Offering(orphans: map<Hash, Orphan>, left: map<Hash, Orphan>, entries: seq<Orphan>, hashPrev: Hash,
                           index: set<Hash>, index': set<Hash>, log: seq<Offer>)
  {
    && left == Unoffered(orphans, entries, hashPrev) && index' == index + IndexedBy(log)
    && HashesIn(log) == orphans.Keys - left.Keys && OnceEach(log)
    && |log| + |left| == |orphans|
  }

  /** The orphans left when those of a parent among the first entries are gone. */
  ghost function Unoffered(orphans: map<Hash, Orphan>, entries: seq<Orphan>, hashPrev: Hash): map<Hash, Orphan> {
    map h | h in orphans && !(orphans[h].hashPrev == hashPrev && orphans[h] in entries) :: orphans[h]
  }

  lemma UnofferedNext(orphans: map<Hash, Orphan>, byPrev: seq<Orphan>, i: nat, hashPrev: Hash)
    requires Inverse(orphans, byPrev) && i < |byPrev|
    ensures var m, o := Unoffered(orphans, byPrev[..i], hashPrev), byPrev[i];
            Unoffered(orphans, byPrev[..i + 1], hashPrev) == (if o.hashPrev == hashPrev then m - {o.hashBlock} else m)
            && (o.hashPrev == hashPrev ==> o.hashBlock in m)
  {
    assert byPrev[..i + 1] == byPrev[..i] + [byPrev[i]];
    assert byPrev[i] in byPrev;
  }

  lemma OfferingStart(orphans: map<Hash, Orphan>, byPrev: seq<Orphan>, hashPrev: Hash, index: set<Hash>)
    ensures Offering(orphans, orphans, byPrev[..0], hashPrev, index, index, [])
  {
    assert Unoffered(orphans, byPrev[..0], hashPrev) == orphans;
    assert IndexedBy([]) == {} && HashesIn([]) == {};
  }

  lemma OfferingSkip(orphans: map<Hash, Orphan>, left: map<Hash, Orphan>, byPrev: seq<Orphan>, i: nat, hashPrev: Hash,
                     index: set<Hash>, index': set<Hash>, log: seq<Offer>)
    requires Inverse(orphans, byPrev) && i < |byPrev| && byPrev[i].hashPrev != hashPrev
    requires Offering(orphans, left, byPrev[..i], hashPrev, index, index', log)
    ensures Offering(orphans, left, byPrev[..i + 1], hashPrev, index, index', log)
  {
    UnofferedNext(orphans, byPrev, i, hashPrev);
  }

  lemma OfferingStep(orphans: map<Hash, Orphan>, left: map<Hash, Orphan>, byPrev: seq<Orphan>, i: nat, hashPrev: Hash,
                     index: set<Hash>, index': set<Hash>, log: seq<Offer>, v: Verdict)
    requires Inverse(orphans, byPrev) && i < |byPrev| && byPrev[i].hashPrev == hashPrev
    requires Offering(orphans, left, byPrev[..i], hashPrev, index, index', log)
    ensures var h := byPrev[i].hashBlock;
            Offering(orphans, left - {h}, byPrev[..i + 1], hashPrev,
                     index, index' + (if v.Refused? then {} else {h}), log + [Offer(h, v)])
  {
    var h := byPrev[i].hashBlock;
    UnofferedNext(orphans, byPrev, i, hashPrev);
    AcceptedMore(log, Offer(h, v));
    assert h in left && h in orphans by { UnofferedIs(orphans, byPrev, i, hashPrev); }
    RemoveOne(left, h);
    MoreOnceEach(log, Offer(h, v));
    assert (left - {h}).Keys == left.Keys - {h};
    OneLessMissing(orphans.Keys, left.Keys, h);
    SetJoin(index, IndexedBy(log), if v.Refused? then {} else {h});
    hide Inverse, Unoffered, HashesIn, IndexedBy, OnceEach;
  }

  lemma OneLessMissing(all: set<Hash>, left: set<Hash>, h: Hash)
    requires h in all
    ensures all - (left - {h}) == (all - left) + {h}
  {
  }

  lemma SetJoin(a: set<Hash>, b: set<Hash>, c: set<Hash>)
    ensures (a + b) + c == a + (b + c)
  {
  }

  lemma UnofferedIs(orphans: map<Hash, Orphan>, byPrev: seq<Orphan>, i: nat, hashPrev: Hash)
    requires Inverse(orphans, byPrev) && i < |byPrev|
    ensures Unoffered(orphans, byPrev[..i], hashPrev).Keys <= orphans.Keys && byPrev[i].hashBlock in orphans
  {
  }

  lemma MoreOnceEach(log: seq<Offer>, o: Offer)
    requires OnceEach(log) && o.hash !in HashesIn(log)
    ensures OnceEach(log + [o])
  {
    forall k | 0 <= k < |log| ensures log[k].hash != o.hash { assert log[k] in log; }
    hide HashesIn;
  }

  lemma RemoveOne(m: map<Hash, Orphan>, h: Hash)
    requires h in m
    ensures |m - {h}| == |m| - 1
  {
    assert (m - {h}).Keys == m.Keys - {h};
  }

  lemma OfferingEnd(orphans: map<Hash, Orphan>, left: map<Hash, Orphan>, byPrev: seq<Orphan>, hashPrev: Hash,
                    index: set<Hash>, index': set<Hash>, log: seq<Offer>)
    requires Inverse(orphans, byPrev) && Offering(orphans, left, byPrev, hashPrev, index, index', log)
    ensures left == WithoutParent(orphans, hashPrev) && index' == index + IndexedBy(log)
    ensures HashesIn(log) == orphans.Keys - left.Keys && OnceEach(log)
    ensures |AcceptedIn(log)| + |left| <= |orphans|
  {
    AcceptedIs(log);
  }

  /** While the queue is worked off: the orphans of the first `i` accepted blocks are gone, and
      each of them was offered once, after its parent. */
  ghost predicate Draining(orphans: map<Hash, Orphan>, left: map<Hash, Orphan>, byPrev: seq<Orphan>,
                           index: set<Hash>, index': set<Hash>, log: seq<Offer>, i: nat)
  {
    && i <= |AcceptedIn(log)| && Inverse(left, byPrev)
    && left == WithoutParents(orphans, SetOf(AcceptedIn(log)[..i]))
    && index' == index + IndexedBy(log)
    && log != [] && log[0].hash !in orphans && OnceEach(log) && ParentsFirst(orphans, log)
    && HashesIn(log) == {log[0].hash} + (orphans.Keys - left.Keys)
  }

  lemma DrainingStart(orphans: map<Hash, Orphan>, byPrev: seq<Orphan>, index: set<Hash>, hash: Hash)
    requires Inverse(orphans, byPrev) && hash !in orphans
    ensures AcceptedIn([Offer(hash, Accepted)]) == [hash]
    ensures Draining(orphans, orphans, byPrev, index, index + {hash}, [Offer(hash, Accepted)], 0)
  {
    var log := [Offer(hash, Accepted)];
    AcceptedMore([], log[0]);
    AcceptedNone();
    WithoutNone(orphans);
    assert [] + log == log && AcceptedIn(log)[..0] == [];
    hide Inverse, AcceptedIn, HashesIn, IndexedBy, WithoutParents, SetOf, UnfinishedBy;
  }

  lemma WithoutNone(orphans: map<Hash, Orphan>)
    ensures WithoutParents(orphans, SetOf<Hash>([])) == orphans
  {
  }

  lemma DrainingInverse(orphans: map<Hash, Orphan>, left: map<Hash, Orphan>, byPrev: seq<Orphan>,
                        index: set<Hash>, index': set<Hash>, log: seq<Offer>, i: nat)
    requires Draining(orphans, left, byPrev, index, index', log, i)
    ensures Inverse(left, byPrev)
  {
  }

  lemma WithoutInverse(orphans: map<Hash, Orphan>, byPrev: seq<Orphan>, hashPrev: Hash)
    requires Inverse(orphans, byPrev)
    ensures Inverse(WithoutParent(orphans, hashPrev), WithoutPrev(byPrev, hashPrev))
  {
    WithoutPrevIs(byPrev, hashPrev);
  }

  lemma WithoutNext(orphans: map<Hash, Orphan>, work: seq<Hash>, i: nat)
    requires i < |work|
    ensures WithoutParent(WithoutParents(orphans, SetOf(work[..i])), work[i])
            == WithoutParents(orphans, SetOf(work[..i + 1]))
  {
    assert work[..i + 1] == work[..i] + [work[i]];
  }

  lemma DrainingStep(orphans: map<Hash, Orphan>, left: map<Hash, Orphan>, byPrev: seq<Orphan>,
                     index: set<Hash>, index': set<Hash>, log: seq<Offer>, i: nat, more: seq<Offer>)
    requires Draining(orphans, left, byPrev, index, index', log, i) && i < |AcceptedIn(log)|
    requires HashesIn(more) == left.Keys - WithoutParent(left, AcceptedIn(log)[i]).Keys && OnceEach(more)
    ensures AcceptedIn(log + more) == AcceptedIn(log) + AcceptedIn(more)
    ensures Draining(orphans, WithoutParent(left, AcceptedIn(log)[i]), WithoutPrev(byPrev, AcceptedIn(log)[i]),
                     index, index' + IndexedBy(more), log + more, i + 1)
  {
    hide Inverse, AcceptedIn, OnceEach, ParentsFirst, HashesIn, IndexedBy, SetOf, WithoutParents, WithoutParent;
    hide WithoutPrev;
    var work := AcceptedIn(log);
    WithoutInverse(left, byPrev, work[i]);
    WithoutNext(orphans, work, i);
    WithoutKeys(orphans, SetOf(work[..i]), work[i]);
    AcceptedJoin(log, more);
    assert AcceptedIn(log + more)[..i + 1] == work[..i + 1];
    JoinOnceEach(orphans, left, log, more);
    JoinParentsFirst(orphans, left, log, more, work[i]);
  }

  lemma WithoutKeys(orphans: map<Hash, Orphan>, parents: set<Hash>, hashPrev: Hash)
    ensures var left := WithoutParents(orphans, parents);
            && (forall h :: h in left ==> h in orphans && left[h] == orphans[h])
            && WithoutParent(left, hashPrev).Keys <= left.Keys <= orphans.Keys
  {
  }

  lemma JoinOnceEach(orphans: map<Hash, Orphan>, left: map<Hash, Orphan>, log: seq<Offer>, more: seq<Offer>)
    requires OnceEach(log) && OnceEach(more) && log != [] && left.Keys <= orphans.Keys && log[0].hash !in orphans
    requires HashesIn(log) == {log[0].hash} + (orphans.Keys - left.Keys) && HashesIn(more) <= left.Keys
    ensures OnceEach(log + more)
  {
    forall i, j | 0 <= i < |log| && 0 <= j < |more| ensures log[i].hash != more[j].hash {
      assert log[i] in log && log[i].hash in HashesIn(log);
      assert more[j] in more && more[j].hash in HashesIn(more);
    }
    hide HashesIn;
  }

  lemma JoinParentsFirst(orphans: map<Hash, Orphan>, left: map<Hash, Orphan>, log: seq<Offer>, more: seq<Offer>,
                         hashPrev: Hash)
    requires ParentsFirst(orphans, log) && hashPrev in AcceptedIn(log)
    requires forall h :: h in left ==> h in orphans && left[h] == orphans[h]
    requires HashesIn(more) == left.Keys - WithoutParent(left, hashPrev).Keys
    ensures ParentsFirst(orphans, log + more)
  {
    var log' := log + more;
    forall k | 0 < k < |log'|
      ensures log'[k].hash in orphans && orphans[log'[k].hash].hashPrev in AcceptedIn(log'[..k])
    {
      if k < |log| {
        assert log'[k] == log[k] && log'[..k] == log[..k];
      } else {
        var m := more[..k - |log|];
        AcceptedJoin(log, m);
        assert log'[..k] == log + m;
        assert log'[k] in more && log'[k].hash in HashesIn(more);
      }
    }
  }

  lemma DrainingEnd(orphans: map<Hash, Orphan>, left: map<Hash, Orphan>, byPrev: seq<Orphan>,
                    index: set<Hash>, index': set<Hash>, log: seq<Offer>)
    requires Draining(orphans, left, byPrev, index, index', log, |AcceptedIn(log)|)
    ensures Inverse(left, byPrev) && Drained(orphans, left, log) && index' == index + IndexedBy(log)
  {
    assert AcceptedIn(log)[..|AcceptedIn(log)|] == AcceptedIn(log);
    hide Inverse;
  }

  class Pool {
    ghost const rank: Hash -> nat
    const nMax: int
    var mapOrphanBlocks: map<Hash, Orphan>
    var mapOrphanBlocksByPrev: seq<Orphan>
    var mapBlockIndex: set<Hash>
    ghost var unfinished: set<Hash>

    /** `unfinished` are the blocks that were refused after they had been put into the index. */
    ghost predicate Valid()
      reads this
    {
      && Inverse(mapOrphanBlocks, mapOrphanBlocksByPrev)
      && Settled(mapOrphanBlocks, mapBlockIndex, unfinished)
      && Ranked(mapOrphanBlocks, rank)
      && |mapOrphanBlocks| <= Limit() + 1
    }

    function Limit(): nat { if nMax > 0 then nMax else 0 }

    constructor (nMax: int, genesis: Hash, ghost rank: Hash -> nat)
      ensures Valid() && mapOrphanBlocks == map[] && mapBlockIndex == {genesis} && unfinished == {}
      ensures this.nMax == nMax && this.rank == rank
    {
      this.nMax, this.rank := nMax, rank;
      mapOrphanBlocks, mapOrphanBlocksByPrev, mapBlockIndex, unfinished := map[], [], {genesis}, {};
    }

    /** The hash of the last ancestor in the pool. */
    method GetOrphanRoot(hash: Hash) returns (root: Hash)
      requires Valid()
      ensures if hash in mapOrphanBlocks then RootOf(mapOrphanBlocks, hash, root) else root == hash
    {
      if hash !in mapOrphanBlocks { return hash; }
      root := hash;
      ghost var k := 0;
      while mapOrphanBlocks[root].hashPrev in mapOrphanBlocks
        invariant root in mapOrphanBlocks && Ancestor(mapOrphanBlocks, hash, k) == root
        decreases rank(root)
      {
        AncestorNext(mapOrphanBlocks, hash, k);
        k := k + 1;
        root := mapOrphanBlocks[root].hashPrev;
      }
    }

    /** The block before the root: not in the pool, and in the index only if it was refused
        after it had been put there. */
    method WantedByOrphan(orphan: Orphan) returns (wanted: Hash)
      requires Valid() && orphan.hashBlock in mapOrphanBlocks && mapOrphanBlocks[orphan.hashBlock] == orphan
      ensures wanted !in mapOrphanBlocks && (wanted in mapBlockIndex <==> wanted in unfinished)
      ensures exists root :: RootOf(mapOrphanBlocks, orphan.hashBlock, root) && wanted == mapOrphanBlocks[root].hashPrev
    {
      var pblockOrphan := orphan;
      ghost var k := 0;
      while pblockOrphan.hashPrev in mapOrphanBlocks
        invariant pblockOrphan.hashBlock in mapOrphanBlocks && mapOrphanBlocks[pblockOrphan.hashBlock] == pblockOrphan
        invariant Ancestor(mapOrphanBlocks, orphan.hashBlock, k) == pblockOrphan.hashBlock
        decreases rank(pblockOrphan.hashBlock)
      {
        AncestorNext(mapOrphanBlocks, orphan.hashBlock, k);
        k := k + 1;
        pblockOrphan := mapOrphanBlocks[pblockOrphan.hashPrev];
      }
      assert RootOf(mapOrphanBlocks, orphan.hashBlock, pblockOrphan.hashBlock);
      wanted := pblockOrphan.hashPrev;
    }

    method FindByPrev(hashPrev: Hash) returns (r: Option<nat>)
      ensures r.Some? ==> r.value < |mapOrphanBlocksByPrev| && mapOrphanBlocksByPrev[r.value].hashPrev == hashPrev
      ensures r.None? ==> forall o :: o in mapOrphanBlocksByPrev ==> o.hashPrev != hashPrev
    {
      var i := 0;
      while i < |mapOrphanBlocksByPrev|
        invariant i <= |mapOrphanBlocksByPrev|
        invariant forall j :: 0 <= j < i ==> mapOrphanBlocksByPrev[j].hashPrev != hashPrev
      {
        if mapOrphanBlocksByPrev[i].hashPrev == hashPrev { return Some(i); }
        i := i + 1;
      }
      r := None;
    }

    /** From a random orphan down to one without orphan children. */
    method PickLeaf() returns (it: nat)
      requires Valid() && mapOrphanBlocksByPrev != []
      ensures it < |mapOrphanBlocksByPrev| && NoChild(mapOrphanBlocks, mapOrphanBlocksByPrev[it].hashBlock)
    {
      it :| it < |mapOrphanBlocksByPrev|;
      while true
        invariant it < |mapOrphanBlocksByPrev|
        decreases Above(mapOrphanBlocks, rank, mapOrphanBlocksByPrev[it].hashBlock)
      {
        var it2 := FindByPrev(mapOrphanBlocksByPrev[it].hashBlock);
        if it2.None? { break; }
        AboveLess(mapOrphanBlocks, mapOrphanBlocksByPrev, rank,
                  mapOrphanBlocksByPrev[it], mapOrphanBlocksByPrev[it2.value]);
        it := it2.value;
      }
    }

    /** Evicts one orphan, with no orphan child, if there are more than allowed. */
    method PruneOrphanBlocks() returns (evicted: Option<Hash>)
      requires Valid()
      modifies `mapOrphanBlocks, `mapOrphanBlocksByPrev
      ensures Valid() && |mapOrphanBlocks| <= Limit()
      ensures |old(mapOrphanBlocks)| <= Limit() ==> evicted == None && mapOrphanBlocks == old(mapOrphanBlocks)
      ensures |old(mapOrphanBlocks)| > Limit() ==>
        && evicted.Some? && evicted.value in old(mapOrphanBlocks) && NoChild(old(mapOrphanBlocks), evicted.value)
        && mapOrphanBlocks == old(mapOrphanBlocks) - {evicted.value}
    {
      InverseCard(mapOrphanBlocks, mapOrphanBlocksByPrev);
      if |mapOrphanBlocksByPrev| <= Limit() { return None; }
      var it := PickLeaf();
      var hash := mapOrphanBlocksByPrev[it].hashBlock;
      assert mapOrphanBlocksByPrev[it] in mapOrphanBlocksByPrev;
      RemoveInverse(mapOrphanBlocks, mapOrphanBlocksByPrev, it);
      mapOrphanBlocksByPrev := mapOrphanBlocksByPrev[..it] + mapOrphanBlocksByPrev[it + 1..];
      mapOrphanBlocks := mapOrphanBlocks - {hash};
      evicted := Some(hash);
    }

    /** A block is refused if it is in the index or its parent is not.  What else is checked, before
        the block is put into the index or after it, is decided elsewhere. */
    method AcceptBlock(hash: Hash, hashPrev: Hash) returns (v: Verdict)
      modifies `mapBlockIndex
      ensures hash in old(mapBlockIndex) || hashPrev !in old(mapBlockIndex) ==> v == Refused
      ensures mapBlockIndex == old(mapBlockIndex) + if v.Refused? then {} else {hash}
    {
      if hash in mapBlockIndex { return Refused; }
      if hashPrev !in mapBlockIndex { return Refused; }
      v := *;
      if !v.Refused? { mapBlockIndex := mapBlockIndex + {hash}; }
    }

    /** Takes in a block that is new; `refused` stands for the checks that can turn it away,
        `fFrom` for a peer to ask for its parents.  The log tells which blocks were offered. */
    method ProcessBlock(hash: Hash, hashPrev: Hash, refused: bool, fFrom: bool) returns (ok: bool, log: seq<Offer>)
      requires Valid() && rank(hashPrev) < rank(hash)
      modifies this
      ensures Valid() && unfinished == old(unfinished) + UnfinishedBy(log)
      ensures Processed(old(mapOrphanBlocks), old(mapBlockIndex), mapOrphanBlocks, mapBlockIndex,
                        Orphan(hash, hashPrev), refused, fFrom, Limit(), ok, log)
    {
      ghost var orphans, index := mapOrphanBlocks, mapBlockIndex;
      var o := Orphan(hash, hashPrev);
      ok, log := false, [];
      AcceptedNone();
      hide Inverse, Settled, OrphanAdded, Drained, IndexedBy, UnfinishedBy;
      if hash in mapBlockIndex { return; }
      if hash in mapOrphanBlocks { return; }
      if refused { return; }
      if hashPrev !in mapBlockIndex {
        if fFrom { AddOrphan(o); }
        return true, [];
      }
      ok, log := AcceptAndDrain(hash, hashPrev);
      unfinished := unfinished + UnfinishedBy(log);
      ProcessedSettled(orphans, index, mapOrphanBlocks, mapBlockIndex,
                       o, refused, fFrom, Limit(), ok, log, old(unfinished));
    }

    /** Offers the block, and if it is accepted the orphans that waited for it. */
    method AcceptAndDrain(hash: Hash, hashPrev: Hash) returns (ok: bool, log: seq<Offer>)
      requires Inverse(mapOrphanBlocks, mapOrphanBlocksByPrev) && Ranked(mapOrphanBlocks, rank)
      requires hash !in mapOrphanBlocks
      modifies `mapOrphanBlocks, `mapOrphanBlocksByPrev, `mapBlockIndex
      ensures Inverse(mapOrphanBlocks, mapOrphanBlocksByPrev) && Ranked(mapOrphanBlocks, rank)
      ensures |mapOrphanBlocks| <= |old(mapOrphanBlocks)| && mapBlockIndex == old(mapBlockIndex) + IndexedBy(log)
      ensures log != [] && log[0].hash == hash && (ok <==> log[0].verdict.Accepted?)
      ensures if ok then Drained(old(mapOrphanBlocks), mapOrphanBlocks, log)
              else |log| == 1 && mapOrphanBlocks == old(mapOrphanBlocks)
    {
      var v := AcceptBlock(hash, hashPrev);
      log, ok := [Offer(hash, v)], v.Accepted?;
      assert log[0] in log;
      assert IndexedBy(log) == if v.Refused? then {} else {hash};
      hide *;
      if ok {
        log := Drain(hash);
        FirstIndexed(old(mapBlockIndex), log);
        FewerOrphans(old(mapOrphanBlocks), mapOrphanBlocks, log, rank);
      }
    }

    /** The orphans that wait for a block that has been accepted: each is offered once, and
        leaves the pool in any case. */
    method DrainOne(hashPrev: Hash) returns (log: seq<Offer>, accepted: seq<Hash>)
      requires Inverse(mapOrphanBlocks, mapOrphanBlocksByPrev)
      modifies `mapOrphanBlocks, `mapOrphanBlocksByPrev, `mapBlockIndex
      ensures mapOrphanBlocksByPrev == WithoutPrev(old(mapOrphanBlocksByPrev), hashPrev)
      ensures mapOrphanBlocks == WithoutParent(old(mapOrphanBlocks), hashPrev)
      ensures mapBlockIndex == old(mapBlockIndex) + IndexedBy(log)
      ensures HashesIn(log) == old(mapOrphanBlocks).Keys - mapOrphanBlocks.Keys && OnceEach(log)
      ensures accepted == AcceptedIn(log) && |accepted| + |mapOrphanBlocks| <= |old(mapOrphanBlocks)|
    {
      log, accepted := [], [];
      var mi := 0;
      ghost var orphans, index := mapOrphanBlocks, mapBlockIndex;
      OfferingStart(orphans, mapOrphanBlocksByPrev, hashPrev, index);
      assert AcceptedIn(log) == [];
      hide *;
      while mi < |mapOrphanBlocksByPrev|
        invariant mi <= |mapOrphanBlocksByPrev| && mapOrphanBlocksByPrev == old(mapOrphanBlocksByPrev)
        invariant Offering(orphans, mapOrphanBlocks, mapOrphanBlocksByPrev[..mi], hashPrev, index, mapBlockIndex, log)
        invariant accepted == AcceptedIn(log)
      {
        var o := mapOrphanBlocksByPrev[mi];
        if o.hashPrev == hashPrev {
          ghost var left, now := mapOrphanBlocks, mapBlockIndex;
          var v := OfferOrphan(o);
          OfferingStep(orphans, left, mapOrphanBlocksByPrev, mi, hashPrev, index, now, log, v);
          AcceptedMore(log, Offer(o.hashBlock, v));
          log := log + [Offer(o.hashBlock, v)];
          if v.Accepted? { accepted := accepted + [o.hashBlock]; }
        } else {
          OfferingSkip(orphans, mapOrphanBlocks, mapOrphanBlocksByPrev, mi, hashPrev, index, mapBlockIndex, log);
        }
        mi := mi + 1;
      }
      assert mapOrphanBlocksByPrev[..mi] == mapOrphanBlocksByPrev;
      OfferingEnd(orphans, mapOrphanBlocks, mapOrphanBlocksByPrev, hashPrev, index, mapBlockIndex, log);
      mapOrphanBlocksByPrev := WithoutPrev(mapOrphanBlocksByPrev, hashPrev);
    }

    /** The orphan is offered, and it is none any more. */
    method OfferOrphan(o: Orphan) returns (v: Verdict)
      modifies `mapOrphanBlocks, `mapBlockIndex
      ensures mapOrphanBlocks == old(mapOrphanBlocks) - {o.hashBlock}
      ensures mapBlockIndex == old(mapBlockIndex) + if v.Refused? then {} else {o.hashBlock}
    {
      v := AcceptBlock(o.hashBlock, o.hashPrev);
      mapOrphanBlocks := mapOrphanBlocks - {o.hashBlock};
    }

    /** The queue of accepted blocks whose orphan children have yet to be offered.  Every
        turn takes one off, and every one put on comes out of the pool. */
    method Drain(hash: Hash) returns (log: seq<Offer>)
      requires Inverse(mapOrphanBlocks, mapOrphanBlocksByPrev) && hash !in mapOrphanBlocks && hash in mapBlockIndex
      modifies `mapOrphanBlocks, `mapOrphanBlocksByPrev, `mapBlockIndex
      ensures Inverse(mapOrphanBlocks, mapOrphanBlocksByPrev) && mapBlockIndex == old(mapBlockIndex) + IndexedBy(log)
      ensures log != [] && log[0] == Offer(hash, Accepted) && Drained(old(mapOrphanBlocks), mapOrphanBlocks, log)
    {
      var vWorkQueue := [hash];
      var i := 0;
      log := [Offer(hash, Accepted)];
      ghost var orphans, index := mapOrphanBlocks, mapBlockIndex;
      DrainingStart(orphans, mapOrphanBlocksByPrev, index, hash);
      assert index + {hash} == index;
      hide *;
      while i < |vWorkQueue|
        invariant i <= |vWorkQueue| && vWorkQueue == AcceptedIn(log) && log != [] && log[0] == Offer(hash, Accepted)
        invariant Draining(orphans, mapOrphanBlocks, mapOrphanBlocksByPrev, index, mapBlockIndex, log, i)
        decreases |mapOrphanBlocks| + |vWorkQueue| - i
      {
        ghost var was, byPrev, now := mapOrphanBlocks, mapOrphanBlocksByPrev, mapBlockIndex;
        DrainingInverse(orphans, was, byPrev, index, now, log, i);
        var more, accepted := DrainOne(vWorkQueue[i]);
        DrainingStep(orphans, was, byPrev, index, now, log, i, more);
        log, vWorkQueue := log + more, vWorkQueue + accepted;
        i := i + 1;
      }
      DrainingEnd(orphans, mapOrphanBlocks, mapOrphanBlocksByPrev, index, mapBlockIndex, log);
    }

    method AddOrphan(o: Orphan)
      requires Valid() && rank(o.hashPrev) < rank(o.hashBlock)
      requires o.hashBlock !in mapOrphanBlocks && o.hashBlock !in mapBlockIndex && o.hashPrev !in mapBlockIndex
      modifies `mapOrphanBlocks, `mapOrphanBlocksByPrev
      ensures Valid() && OrphanAdded(old(mapOrphanBlocks), mapOrphanBlocks, o, Limit())
    {
      var evicted := PruneOrphanBlocks();
      ghost var left := mapOrphanBlocks;
      InsertInverse(left, mapOrphanBlocksByPrev, o);
      OneMore(left, mapBlockIndex, unfinished, o, rank);
      assert evicted.Some? ==> left == old(mapOrphanBlocks) - {evicted.value};
      hide Inverse, Settled, NoChild;
      mapOrphanBlocks := mapOrphanBlocks[o.hashBlock := o];
      mapOrphanBlocksByPrev := mapOrphanBlocksByPrev + [o];
    }
  }

  lemma OneMore(orphans: map<Hash, Orphan>, index: set<Hash>, unfinished: set<Hash>, o: Orphan, rank: Hash -> nat)
    requires Settled(orphans, index, unfinished) && Ranked(orphans, rank) && rank(o.hashPrev) < rank(o.hashBlock)
    requires o.hashBlock !in orphans && o.hashBlock !in index && o.hashPrev !in index
    ensures var orphans' := orphans[o.hashBlock := o];
            Settled(orphans', index, unfinished) && Ranked(orphans', rank) && |orphans'| == |orphans| + 1
  {
    assert orphans[o.hashBlock := o].Keys == orphans.Keys + {o.hashBlock};
  }

  lemma FewerOrphans(orphans: map<Hash, Orphan>, orphans': map<Hash, Orphan>, log: seq<Offer>, rank: Hash -> nat)
    requires Ranked(orphans, rank) && Drained(orphans, orphans', log)
    ensures Ranked(orphans', rank) && |orphans'| <= |orphans|
  {
    SubsetCard(orphans'.Keys, orphans.Keys);
  }

  ghost function Above(orphans: map<Hash, Orphan>, rank: Hash -> nat, hash: Hash): set<Hash> {
    set h | h in orphans && rank(h) > rank(hash)
  }

  lemma AboveLess(orphans: map<Hash, Orphan>, byPrev: seq<Orphan>, rank: Hash -> nat, o: Orphan, child: Orphan)
    requires Inverse(orphans, byPrev) && Ranked(orphans, rank) && child in byPrev && child.hashPrev == o.hashBlock
    ensures Above(orphans, rank, child.hashBlock) < Above(orphans, rank, o.hashBlock)
  {
    assert child.hashBlock in Above(orphans, rank, o.hashBlock);
    assert child.hashBlock !in Above(orphans, rank, child.hashBlock);
  }
}
