/** A map of bounded size with an index by value: when it is full, the entry of least value
    makes room.  A bound of zero is no bound; a bound of one would ask an empty index for a
    victim. */
module LimitedMap {
  /** An entry of the index: a value and the place in the map it belongs to. */
  datatype Rev<K> = Rev(value: int, key: K)

  ghost predicate SortedByValue<K>(rmap: seq<Rev<K>>) {
    forall i, j :: 0 <= i < j < |rmap| ==> rmap[i].value <= rmap[j].value
  }

  /** The index holds every entry of the map once, and nothing else. */
  ghost predicate Inverse<K>(m: map<K, int>, rmap: seq<Rev<K>>) {
    && (forall i :: 0 <= i < |rmap| ==> rmap[i].key in m && m[rmap[i].key] == rmap[i].value)
    && (forall k :: k in m ==> Rev(m[k], k) in rmap)
    && forall i, j :: 0 <= i < j < |rmap| ==> rmap[i].key != rmap[j].key
  }

  ghost predicate Least<K>(m: map<K, int>, k: K) { k in m && forall j :: j in m ==> m[k] <= m[j] }

  function Without<K>(rmap: seq<Rev<K>>, i: nat): seq<Rev<K>>
    requires i < |rmap|
  {
    rmap[..i] + rmap[i + 1..]
  }

  function With<K>(rmap: seq<Rev<K>>, i: nat, e: Rev<K>): seq<Rev<K>>
    requires i <= |rmap|
  {
    rmap[..i] + [e] + rmap[i..]
  }

  lemma WithoutSorted<K>(rmap: seq<Rev<K>>, i: nat)
    requires SortedByValue(rmap) && i < |rmap|
    ensures SortedByValue(Without(rmap, i))
  {
  }

  lemma WithoutKeys<K>(m: map<K, int>, rmap: seq<Rev<K>>, i: nat)
    requires Inverse(m, rmap) && i < |rmap|
    ensures Inverse(m - {rmap[i].key}, Without(rmap, i))
  {
    var k, rmap' := rmap[i].key, Without(rmap, i);
    assert forall n :: 0 <= n < |rmap'| ==> rmap'[n] == rmap[if n < i then n else n + 1];
    forall j | j in m && j != k ensures Rev(m[j], j) in rmap' {
      var n :| 0 <= n < |rmap| && rmap[n] == Rev(m[j], j);
      assert rmap'[if n < i then n else n - 1] == rmap[n];
    }
  }

  lemma WithoutInverse<K>(m: map<K, int>, rmap: seq<Rev<K>>, i: nat)
    requires Inverse(m, rmap) && SortedByValue(rmap) && i < |rmap|
    ensures Inverse(m - {rmap[i].key}, Without(rmap, i)) && SortedByValue(Without(rmap, i))
  {
    hide *;
    WithoutSorted(rmap, i);
    WithoutKeys(m, rmap, i);
  }

  lemma WithSorted<K>(rmap: seq<Rev<K>>, i: nat, e: Rev<K>)
    requires SortedByValue(rmap) && i <= |rmap|
    requires forall j :: 0 <= j < i ==> rmap[j].value <= e.value
    requires forall j :: i <= j < |rmap| ==> e.value < rmap[j].value
    ensures SortedByValue(With(rmap, i, e))
  {
  }

  lemma WithKeys<K>(m: map<K, int>, rmap: seq<Rev<K>>, i: nat, k: K, v: int)
    requires Inverse(m, rmap) && i <= |rmap| && k !in m
    ensures Inverse(m[k := v], With(rmap, i, Rev(v, k)))
  {
    WithAt(rmap, i, Rev(v, k));
    hide With;
    forall j | j in m ensures Rev(m[j], j) in With(rmap, i, Rev(v, k)) { assert Rev(m[j], j) in rmap; }
  }

  lemma WithAt<K>(rmap: seq<Rev<K>>, i: nat, e: Rev<K>)
    requires i <= |rmap|
    ensures var rmap' := With(rmap, i, e);
            && |rmap'| == |rmap| + 1 && rmap'[i] == e
            && (forall n :: 0 <= n < |rmap'| && n != i ==> rmap'[n] == rmap[if n < i then n else n - 1])
            && forall x :: x in rmap ==> x in rmap'
  {
    var rmap' := With(rmap, i, e);
    forall x | x in rmap ensures x in rmap' {
      var n :| 0 <= n < |rmap| && rmap[n] == x;
      assert rmap'[if n < i then n else n + 1] == x;
    }
  }

  lemma WithInverse<K>(m: map<K, int>, rmap: seq<Rev<K>>, i: nat, k: K, v: int)
    requires Inverse(m, rmap) && SortedByValue(rmap) && i <= |rmap| && k !in m
    requires forall j :: 0 <= j < i ==> rmap[j].value <= v
    requires forall j :: i <= j < |rmap| ==> v < rmap[j].value
    ensures Inverse(m[k := v], With(rmap, i, Rev(v, k))) && SortedByValue(With(rmap, i, Rev(v, k)))
  {
    hide *;
    WithSorted(rmap, i, Rev(v, k));
    WithKeys(m, rmap, i, k, v);
  }

  lemma NotEmpty<K>(m: map<K, int>, rmap: seq<Rev<K>>)
    requires Inverse(m, rmap) && |m| > 0
    ensures rmap != []
  {
    var k :| k in m;
    assert Rev(m[k], k) in rmap;
  }

  lemma MapSizes<K>(m: map<K, int>, k: K, v: int)
    ensures k !in m ==> |m[k := v]| == |m| + 1 && m[k := v] - {k} == m
    ensures k in m ==> |m - {k}| == |m| - 1 && |m[k := v]| == |m| && m[k := v] - {k} == m - {k}
  {
    assert m[k := v].Keys == m.Keys + {k};
    assert (m - {k}).Keys == m.Keys - {k};
  }

  lemma {:induction false} InverseCard<K>(m: map<K, int>, rmap: seq<Rev<K>>)
    requires Inverse(m, rmap) && SortedByValue(rmap)
    ensures |rmap| == |m|
    decreases |rmap|
  {
    if rmap == [] {
      assert m == map[];
    } else {
      var n := |rmap| - 1;
      WithoutInverse(m, rmap, n);
      assert Without(rmap, n) == rmap[..n];
      InverseCard(m - {rmap[n].key}, rmap[..n]);
      assert (m - {rmap[n].key}).Keys == m.Keys - {rmap[n].key};
    }
  }

  /** The first of the index belongs to an entry of least value. */
  lemma FirstIsLeast<K>(m: map<K, int>, rmap: seq<Rev<K>>)
    requires Inverse(m, rmap) && SortedByValue(rmap) && rmap != []
    ensures Least(m, rmap[0].key)
  {
    forall j | j in m ensures m[rmap[0].key] <= m[j] {
      var n :| 0 <= n < |rmap| && rmap[n] == Rev(m[j], j);
      assert rmap[0].value <= rmap[n].value;
    }
  }

  // ---------- what a run of insertions keeps ----------

  /** The effect of an insertion into a map of at most nMaxSize - 1 entries. */
  ghost predicate Inserted<K>(nMaxSize: nat, m: map<K, int>, k: K, v: int, m': map<K, int>) {
    if k in m then m' == m
    else if |m| + 1 != nMaxSize then m' == m[k := v]
    else exists e :: e in m && Least(m, e) && m' == (m - {e})[k := v]
  }

  /** Of all that was inserted there are the last one and, as far as there is room, the largest of
      those before it. */
  ghost predicate Keeps<K>(nMaxSize: nat, all: map<K, int>, m: map<K, int>, last: K) {
    && (forall k :: k in m ==> k in all && m[k] == all[k]) && last in m
    && (if nMaxSize == 0 || |all| < nMaxSize then m == all else |m| == nMaxSize - 1)
    && forall k, d :: k in m && k != last && d in all && d !in m ==> all[d] <= m[k]
  }

  /** The claim of the documentation: what is there is as large as anything that is not. */
  ghost predicate KeepsHighest<K>(all: map<K, int>, m: map<K, int>) {
    forall k, d :: k in m && d in all && d !in m ==> all[d] <= m[k]
  }

  lemma KeepsFirst<K>(nMaxSize: nat, k: K, v: int, m: map<K, int>)
    requires nMaxSize != 1 && Inserted(nMaxSize, map[], k, v, m)
    ensures Keeps(nMaxSize, map[k := v], m, k) && KeepsHighest(map[k := v], m)
  {
    assert m == map[k := v];
    assert |map[k := v]| == 1;
  }

  lemma KeepsStep<K>(nMaxSize: nat, all: map<K, int>, m: map<K, int>, last: K, k: K, v: int, m': map<K, int>)
    requires nMaxSize != 1 && Keeps(nMaxSize, all, m, last) && k !in all && Inserted(nMaxSize, m, k, v, m')
    ensures Keeps(nMaxSize, all[k := v], m', k)
  {
    MapSizes(all, k, v);
    MapSizes(m, k, v);
    if |m| + 1 == nMaxSize {
      var e :| Least(m, e) && m' == (m - {e})[k := v];
      MapSizes(m, e, 0);
      MapSizes(m - {e}, k, v);
    }
  }

  /** The states of a run, in which no key is inserted twice. */
  ghost predicate IsRun<K>(nMaxSize: nat, keys: seq<K>, values: seq<int>, states: seq<map<K, int>>) {
    && |keys| == |values| && |states| == |keys| + 1 && states[0] == map[]
    && (forall i, j :: 0 <= i < j < |keys| ==> keys[i] != keys[j])
    && forall i :: 0 <= i < |keys| ==> Inserted(nMaxSize, states[i], keys[i], values[i], states[i + 1])
  }

  ghost function Given<K>(keys: seq<K>, values: seq<int>, n: nat): (all: map<K, int>)
    requires n <= |keys| == |values|
    ensures (forall k :: k in all ==> k in keys[..n]) && forall k :: k in keys[..n] ==> k in all
  {
    if n == 0 then map[] else
      assert keys[..n] == keys[..n - 1] + [keys[n - 1]];
      Given(keys, values, n - 1)[keys[n - 1] := values[n - 1]]
  }

  /** After every run the map holds the last key and the largest of those before it. */
  lemma {:induction false} RunKeeps<K>(nMaxSize: nat, keys: seq<K>, values: seq<int>, states: seq<map<K, int>>, n: nat)
    requires nMaxSize != 1 && IsRun(nMaxSize, keys, values, states) && 0 < n <= |keys|
    ensures Keeps(nMaxSize, Given(keys, values, n), states[n], keys[n - 1])
  {
    hide Keeps, Inserted;
    if n == 1 {
      KeepsFirst(nMaxSize, keys[0], values[0], states[1]);
      assert Given(keys, values, 0) == map[];
    } else {
      RunKeeps(nMaxSize, keys, values, states, n - 1);
      assert keys[n - 1] !in keys[..n - 1];
      KeepsStep(nMaxSize, Given(keys, values, n - 1), states[n - 1], keys[n - 2],
                keys[n - 1], values[n - 1], states[n]);
    }
  }

  /** So the claim holds exactly if the last value is no smaller than any that was driven out. */
  lemma HighestIff<K>(nMaxSize: nat, all: map<K, int>, m: map<K, int>, last: K)
    requires Keeps(nMaxSize, all, m, last)
    ensures KeepsHighest(all, m) <==> forall d :: d in all && d !in m ==> all[d] <= all[last]
  {
  }

  /** Where it held before, it still holds exactly if there was room or the new value is no
      smaller than the least one before. */
  lemma HighestStep<K>(nMaxSize: nat, all: map<K, int>, m: map<K, int>, last: K, k: K, v: int, m': map<K, int>)
    requires nMaxSize != 1 && Keeps(nMaxSize, all, m, last) && KeepsHighest(all, m)
    requires k !in all && Inserted(nMaxSize, m, k, v, m')
    ensures KeepsHighest(all[k := v], m') <==> |m| + 1 != nMaxSize || forall e :: Least(m, e) ==> m[e] <= v
  {
    assert k !in m;
    if |m| + 1 == nMaxSize {
      var e :| e in m && Least(m, e) && m' == (m - {e})[k := v];
      HighestEvicting(all, m, e, k, v);
    } else {
      assert m == all;
    }
  }

  lemma HighestEvicting<K>(all: map<K, int>, m: map<K, int>, e: K, k: K, v: int)
    requires (forall j :: j in m ==> j in all && m[j] == all[j]) && KeepsHighest(all, m) && Least(m, e) && k !in all
    ensures KeepsHighest(all[k := v], (m - {e})[k := v]) <==> m[e] <= v
  {
    var all', m' := all[k := v], (m - {e})[k := v];
    assert e in all' && e !in m' && all'[e] == m[e] && k in m' && m'[k] == v;
  }

  lemma InsertedInRoom<K>(nMaxSize: nat, k: K, v: int)
    requires nMaxSize != 1
    ensures Inserted(nMaxSize, map[], k, v, map[k := v])
  {
  }

  lemma InsertedAlone<K>(k: K, v: int, k': K, v': int)
    requires k' != k
    ensures Inserted(2, map[k := v], k', v', map[k' := v'])
  {
    var m := map[k := v];
    MapSizes(map[], k, v);
    assert m - {k} == map[];
    assert k in m && Least(m, k) && map[k' := v'] == (m - {k})[k' := v'];
  }

  lemma NotHighest<K>(all: map<K, int>, m: map<K, int>, k: K, d: K)
    requires k in m && d in all && d !in m && all[d] > m[k]
    ensures !KeepsHighest(all, m)
  {
  }

  /** Room for one: 1 drives out 5, and then 3 drives out 1.  The last value is larger than the one
      it drove out, and yet the highest, which is 5, is missing. */
  lemma NotHighestExample()
    ensures var keys, values := [0, 1, 2], [5, 1, 3];
            var states := [map[], map[0 := 5], map[1 := 1], map[2 := 3]];
            IsRun(2, keys, values, states) && !KeepsHighest(Given(keys, values, 3), states[3])
  {
    var keys, values := [0, 1, 2], [5, 1, 3];
    InsertedInRoom(2, 0, 5);
    InsertedAlone(0, 5, 1, 1);
    InsertedAlone(1, 1, 2, 3);
    assert Given(keys, values, 1) == map[0 := 5];
    assert Given(keys, values, 3) == map[0 := 5, 1 := 1, 2 := 3];
    NotHighest(map[0 := 5, 1 := 1, 2 := 3], map[2 := 3], 2, 0);
    hide Inserted, Given, KeepsHighest;
  }

  class Limited<K(==)> {
    var m: map<K, int>
    var rmap: seq<Rev<K>>
    const nMaxSize: nat

    ghost predicate Valid()
      reads this
    {
      && Inverse(m, rmap) && SortedByValue(rmap)
      && nMaxSize != 1 && (nMaxSize == 0 || |m| <= nMaxSize - 1)
    }

    constructor (nMaxSizeIn: nat)
      requires nMaxSizeIn != 1
      ensures Valid() && m == map[] && nMaxSize == nMaxSizeIn
    {
      m, rmap, nMaxSize := map[], [], nMaxSizeIn;
    }

    /** The first place of the index with a larger value. */
    method UpperBound(v: int) returns (i: nat)
      requires SortedByValue(rmap)
      ensures i <= |rmap|
      ensures forall j :: 0 <= j < i ==> rmap[j].value <= v
      ensures forall j :: i <= j < |rmap| ==> v < rmap[j].value
    {
      i := 0;
      while i < |rmap| && rmap[i].value <= v
        invariant i <= |rmap| && forall j :: 0 <= j < i ==> rmap[j].value <= v
      {
        i := i + 1;
      }
    }

    /** The first place of the index with a value that is not smaller. */
    method LowerBound(v: int) returns (i: nat)
      requires SortedByValue(rmap)
      ensures i <= |rmap|
      ensures forall j :: 0 <= j < i ==> rmap[j].value < v
      ensures forall j :: i <= j < |rmap| ==> v <= rmap[j].value
    {
      i := 0;
      while i < |rmap| && rmap[i].value < v
        invariant i <= |rmap| && forall j :: 0 <= j < i ==> rmap[j].value < v
      {
        i := i + 1;
      }
    }

    /** Where the index holds an entry: the search among equal values cannot fail. */
    method FindRev(k: K) returns (it: nat)
      requires Inverse(m, rmap) && SortedByValue(rmap) && k in m
      ensures it < |rmap| && rmap[it] == Rev(m[k], k)
    {
      it := LowerBound(m[k]);
      var last := UpperBound(m[k]);
      ghost var n :| 0 <= n < |rmap| && rmap[n] == Rev(m[k], k);
      while it != last
        invariant it <= n < last
      {
        if rmap[it].key == k { return; }
        it := it + 1;
      }
      assert false;
    }

    method InsertRev(k: K, v: int)
      requires Inverse(m - {k}, rmap) && SortedByValue(rmap) && k in m && m[k] == v
      modifies `rmap
      ensures Inverse(m, rmap) && SortedByValue(rmap)
    {
      var i := UpperBound(v);
      WithInverse(m - {k}, rmap, i, k, v);
      assert (m - {k})[k := v] == m;
      rmap := With(rmap, i, Rev(v, k));
    }

    /** A key that is there keeps its value.  A new one drives out, from a full map, an entry
        that had the least value before, whatever its own value is. */
    method Insert(k: K, v: int) returns (ghost evicted: seq<K>)
      requires Valid()
      modifies this
      ensures Valid()
      ensures k in old(m) ==> m == old(m) && rmap == old(rmap)
      ensures k !in old(m) && |old(m)| + 1 != nMaxSize ==> m == old(m)[k := v] && evicted == []
      ensures k !in old(m) && |old(m)| + 1 == nMaxSize ==>
        |evicted| == 1 && Least(old(m), evicted[0]) && m == (old(m) - {evicted[0]})[k := v]
      ensures Inserted(nMaxSize, old(m), k, v, m)
    {
      evicted := [];
      hide Inverse, SortedByValue;
      if k in m { return; }
      MapSizes(m, k, v);
      m := m[k := v];
      if nMaxSize != 0 && |m| == nMaxSize {
        NotEmpty(m - {k}, rmap);
        evicted := [rmap[0].key];
        EvictFirst(k);
        assert m - {k} == old(m) - {evicted[0]};
      }
      InsertRev(k, v);
    }

    /** The first of the index goes, and its entry; the index does not know of k yet. */
    method EvictFirst(ghost k: K)
      requires Inverse(m - {k}, rmap) && SortedByValue(rmap) && k in m && |m| >= 2
      modifies this
      ensures old(rmap) != [] && old(rmap)[0].key != k && Least(old(m) - {k}, old(rmap)[0].key)
      ensures m == old(m) - {old(rmap)[0].key} && |m| == |old(m)| - 1
      ensures Inverse(m - {k}, rmap) && SortedByValue(rmap)
    {
      ghost var was := m - {k};
      InverseCard(was, rmap);
      MapSizes(m, k, 0);
      FirstIsLeast(was, rmap);
      WithoutInverse(was, rmap, 0);
      MapSizes(m, rmap[0].key, 0);
      assert m - {rmap[0].key} - {k} == was - {rmap[0].key};
      hide Inverse, SortedByValue;
      m := m - {rmap[0].key};
      rmap := Without(rmap, 0);
    }

    method Erase(k: K)
      requires Valid()
      modifies this
      ensures Valid() && m == old(m) - {k}
    {
      if k !in m { return; }
      var it := FindRev(k);
      WithoutInverse(m, rmap, it);
      rmap := Without(rmap, it);
      MapSizes(m, k, 0);
      m := m - {k};
    }

    method Update(k: K, v: int)
      requires Valid()
      modifies this
      ensures Valid() && m == if k in old(m) then old(m)[k := v] else old(m)
    {
      if k !in m { return; }
      var it := FindRev(k);
      WithoutInverse(m, rmap, it);
      rmap := Without(rmap, it);
      MapSizes(m, k, v);
      m := m[k := v];
      InsertRev(k, v);
    }
  }
}
