/**
 PHP ordered arrays with scalar keys, as association lists.

 A PHP array keeps its keys in insertion order; writing `$a[$k] = $v` for a key
 that is already present replaces the value in place, and for a new key appends
 the pair at the end. `OrderedMap` is such an array: a sequence of key/value
 pairs in which every key occurs once.
 */
module OrderedMaps {
  import opened Results

  /** The keys of an association list, in order. */
  function Keys<K, V>(m: seq<(K, V)>): seq<K>
  {
    seq(|m|, i requires 0 <= i < |m| => m[i].0)
  }

  /** No element occurs twice. */
  ghost predicate Distinct<K>(ks: seq<K>)
  {
    forall i, j :: 0 <= i < j < |ks| ==> ks[i] != ks[j]
  }

  /** An ordered array: every key at most once. */
  type OrderedMap<K, V> = m: seq<(K, V)> | Distinct(Keys(m))

  /** The position of the first occurrence of `k` in `ks`. */
  function IndexOf<K(==)>(ks: seq<K>, k: K): (i: nat)
    requires k in ks
    ensures i < |ks| && ks[i] == k
    ensures k !in ks[..i]
  {
    if ks[0] == k then 0
    else
      var j := IndexOf(ks[1..], k);
      assert ks[..j + 1] == [ks[0]] + ks[1..][..j];
      j + 1
  }

  /** In a sequence without repetitions, an element's position is its index. */
  lemma IndexOfDistinct<K>(ks: seq<K>, i: nat)
    requires Distinct(ks) && i < |ks|
    ensures IndexOf(ks, ks[i]) == i
  {
  }

  /** `$a[$k] ?? null`: the value stored under `k`, if any. */
  function Lookup<K(==), V>(m: seq<(K, V)>, k: K): Option<V>
  {
    if k in Keys(m) then Some(m[IndexOf(Keys(m), k)].1) else None
  }

  /** The elements of `ks` that do not occur in `excluded`, in their order. */
  function Without<K(==)>(ks: seq<K>, excluded: seq<K>): seq<K>
  {
    if ks == [] then []
    else if ks[0] in excluded then Without(ks[1..], excluded)
    else [ks[0]] + Without(ks[1..], excluded)
  }

  /**
   `$a[$k] = $v`: the value under `k` becomes `v`; an existing key keeps its
   position, a new key is appended, and no other key's value changes.
   */
  function Update<K(==, !new), V>(m: OrderedMap<K, V>, k: K, v: V): (r: OrderedMap<K, V>)
    ensures Keys(r) == if k in Keys(m) then Keys(m) else Keys(m) + [k]
    ensures Lookup(r, k) == Some(v)
    ensures forall k' | k' != k :: Lookup(r, k') == Lookup(m, k')
    ensures forall i :: 0 <= i < |r| ==> r[i] in m || r[i] == (k, v)
  {
    if k in Keys(m) then
      var r := m[IndexOf(Keys(m), k) := (k, v)];
      assert Keys(r) == Keys(m);
      r
    else
      var r := m + [(k, v)];
      assert Keys(r) == Keys(m) + [k];
      assert Keys(r)[..|m|] == Keys(m);
      IndexOfDistinct(Keys(r), |m|);
      r
  }

  /**
   The writes `$a[$k] = $v` of `kvs`, one after another: the array ends up
   with exactly the keys it had and the keys written.
   */
  function UpdateAll<K(==, !new), V>(m: OrderedMap<K, V>, kvs: seq<(K, V)>): (r: OrderedMap<K, V>)
    ensures forall k :: k in Keys(r) <==> k in Keys(m) || k in Keys(kvs)
    decreases |kvs|
  {
    if kvs == [] then m
    else
      var m1 := Update(m, kvs[0].0, kvs[0].1);
      assert forall k :: k in Keys(m1) <==> k in Keys(m) || k == kvs[0].0;
      assert Keys(kvs) == [kvs[0].0] + Keys(kvs[1..]);
      UpdateAll(m1, kvs[1..])
  }

  /** After a run of writes, every pair in the array is one it held before or one that was written. */
  lemma {:induction false} UpdateAllEntries<K(!new), V>(m: OrderedMap<K, V>, kvs: seq<(K, V)>)
    ensures forall i :: 0 <= i < |UpdateAll(m, kvs)| ==> UpdateAll(m, kvs)[i] in m || UpdateAll(m, kvs)[i] in kvs
    decreases |kvs|
  {
    if kvs != [] {
      var m1 := Update(m, kvs[0].0, kvs[0].1);
      UpdateAllEntries(m1, kvs[1..]);
      var r := UpdateAll(m, kvs);
      forall i | 0 <= i < |r|
        ensures r[i] in m || r[i] in kvs
      {
        if r[i] in m1 {
          var j :| 0 <= j < |m1| && m1[j] == r[i];
          assert m1[j] in m || m1[j] == kvs[0];
        } else {
          assert r[i] in kvs[1..];
        }
      }
    }
  }

  /** Dropping the head of an association list drops the head of its keys. */
  lemma KeysTail<K, V>(m: seq<(K, V)>)
    requires m != []
    ensures Keys(m[1..]) == Keys(m)[1..]
  {
  }

  /** Looking up in a non-empty list: the head answers for its own key. */
  lemma LookupCons<K, V>(m: seq<(K, V)>, k: K)
    requires m != []
    ensures Lookup(m, k) == if m[0].0 == k then Some(m[0].1) else Lookup(m[1..], k)
  {
    KeysTail(m);
    var ks := Keys(m);
    assert ks == [ks[0]] + ks[1..];
    if ks[0] == k {
      assert IndexOf(ks, k) == 0;
    } else if k in ks[1..] {
      assert IndexOf(ks, k) == IndexOf(ks[1..], k) + 1;
    }
  }

  /** Excluding a key that does not occur changes nothing. */
  lemma {:induction false} WithoutAbsent<K(!new)>(ks: seq<K>, excluded: seq<K>, k: K)
    requires k !in ks
    ensures Without(ks, excluded + [k]) == Without(ks, excluded)
    decreases |ks|
  {
    if ks != [] {
      WithoutAbsent(ks[1..], excluded, k);
    }
  }

  /** Excluding nothing keeps every element. */
  lemma {:induction false} WithoutNothing<K(!new)>(ks: seq<K>)
    ensures Without(ks, []) == ks
    decreases |ks|
  {
    if ks != [] {
      WithoutNothing(ks[1..]);
    }
  }

  /** Two ordered arrays with the same keys in the same order and the same values are equal. */
  lemma SameKeysAndValues<K, V>(a: OrderedMap<K, V>, b: OrderedMap<K, V>)
    requires Keys(a) == Keys(b)
    requires forall k :: Lookup(a, k) == Lookup(b, k)
    ensures a == b
  {
    forall i | 0 <= i < |a|
      ensures a[i] == b[i]
    {
      IndexOfDistinct(Keys(a), i);
      assert Lookup(a, Keys(a)[i]) == Lookup(b, Keys(a)[i]);
    }
  }

  /** Writing a key the array already has leaves its keys as they were. */
  lemma UpdateKeysStepOld<K(!new), V>(m: OrderedMap<K, V>, kvs: seq<(K, V)>)
    requires kvs != [] && Distinct(Keys(kvs))
    requires kvs[0].0 in Keys(m)
    ensures Keys(m) + Without(Keys(kvs), Keys(m))
         == Keys(Update(m, kvs[0].0, kvs[0].1)) + Without(Keys(kvs)[1..], Keys(Update(m, kvs[0].0, kvs[0].1)))
  {
    var ks := Keys(kvs);
    assert ks[0] in Keys(m);
    assert Without(ks, Keys(m)) == Without(ks[1..], Keys(m));
  }

  /** Writing a new key appends it, and it is not pending again later. */
  lemma UpdateKeysStepNew<K(!new), V>(m: OrderedMap<K, V>, kvs: seq<(K, V)>)
    requires kvs != [] && Distinct(Keys(kvs))
    requires kvs[0].0 !in Keys(m)
    ensures Keys(m) + Without(Keys(kvs), Keys(m))
         == Keys(Update(m, kvs[0].0, kvs[0].1)) + Without(Keys(kvs)[1..], Keys(Update(m, kvs[0].0, kvs[0].1)))
  {
    var k := kvs[0].0;
    var ks := Keys(kvs);
    var m1 := Update(m, k, kvs[0].1);
    assert Keys(m1) == Keys(m) + [k];
    assert k !in ks[1..] by {
      assert forall j :: 1 <= j < |ks| ==> ks[j] != ks[0];
    }
    WithoutAbsent(ks[1..], Keys(m), k);
    var w := Without(ks[1..], Keys(m));
    assert Without(ks, Keys(m)) == [k] + w;
    assert Keys(m1) + w == Keys(m) + ([k] + w);
  }

  /**
   After writing the distinct keys of `kvs` into `m`, the array's keys are
   those of `m` in their old order, followed by the new keys in the order they
   were first written.
   */
  lemma {:induction false} UpdateAllKeys<K(!new), V>(m: OrderedMap<K, V>, kvs: seq<(K, V)>)
    requires Distinct(Keys(kvs))
    ensures Keys(UpdateAll(m, kvs)) == Keys(m) + Without(Keys(kvs), Keys(m))
    decreases |kvs|
  {
    if kvs != [] {
      KeysTail(kvs);
      UpdateAllKeys(Update(m, kvs[0].0, kvs[0].1), kvs[1..]);
      if kvs[0].0 in Keys(m) {
        UpdateKeysStepOld(m, kvs);
      } else {
        UpdateKeysStepNew(m, kvs);
      }
    }
  }

  /** Excluding every element leaves nothing. */
  lemma {:induction false} WithoutCovered<K(!new)>(ks: seq<K>, excluded: seq<K>)
    requires forall k :: k in ks ==> k in excluded
    ensures Without(ks, excluded) == []
    decreases |ks|
  {
    if ks != [] {
      assert ks[0] in ks;
      WithoutCovered(ks[1..], excluded);
    }
  }

  /** After writing the distinct keys of `kvs`, a written key holds its written value and every other key its old one. */
  lemma {:induction false} UpdateAllLookup<K(!new), V>(m: OrderedMap<K, V>, kvs: seq<(K, V)>, k: K)
    requires Distinct(Keys(kvs))
    ensures Lookup(UpdateAll(m, kvs), k) == if k in Keys(kvs) then Lookup(kvs, k) else Lookup(m, k)
    decreases |kvs|
  {
    if kvs != [] {
      var m1 := Update(m, kvs[0].0, kvs[0].1);
      KeysTail(kvs);
      LookupCons(kvs, k);
      UpdateAllLookup(m1, kvs[1..], k);
      if k == kvs[0].0 {
        assert forall j :: 1 <= j < |kvs| ==> Keys(kvs)[j] != Keys(kvs)[0];
      }
    }
  }

  /** Writing the same distinct-keyed pairs a second time changes nothing. */
  lemma UpdateAllIdempotent<K(!new), V>(m: OrderedMap<K, V>, kvs: seq<(K, V)>)
    requires Distinct(Keys(kvs))
    ensures UpdateAll(UpdateAll(m, kvs), kvs) == UpdateAll(m, kvs)
  {
    var m1 := UpdateAll(m, kvs);
    var m2 := UpdateAll(m1, kvs);
    forall k | k in Keys(kvs)
      ensures k in Keys(m1)
    {
      UpdateAllLookup(m, kvs, k);
    }
    WithoutCovered(Keys(kvs), Keys(m1));
    UpdateAllKeys(m1, kvs);
    assert Keys(m2) == Keys(m1);
    forall k
      ensures Lookup(m2, k) == Lookup(m1, k)
    {
      UpdateAllLookup(m1, kvs, k);
      UpdateAllLookup(m, kvs, k);
    }
    SameKeysAndValues(m2, m1);
  }

  /** Writing a key twice is writing it once with the second value: the key keeps its first position. */
  lemma UpdateOverwrites<K(!new), V>(m: OrderedMap<K, V>, k: K, v1: V, v2: V)
    ensures Update(Update(m, k, v1), k, v2) == Update(m, k, v2)
  {
    var a := Update(Update(m, k, v1), k, v2);
    var b := Update(m, k, v2);
    forall k' ensures Lookup(a, k') == Lookup(b, k') {
    }
    SameKeysAndValues(a, b);
  }
}
