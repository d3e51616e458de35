/**
 * A JavaScript `Map`: a finite map that remembers the order in which its keys
 * were first inserted; `Array.from(map.values())` lists the values in that order.
 */
module OrderedMaps {
  import opened Wrappers

  /** `s` with every occurrence of `x` taken out, the rest in order. */
  function Without<K(==)>(s: seq<K>, x: K): (r: seq<K>)
    ensures forall i :: 0 <= i < |r| ==> r[i] in s && r[i] != x
    ensures forall i :: 0 <= i < |s| && s[i] != x ==> s[i] in r
  {
    if s == [] then []
    else if s[0] == x then Without(s[1..], x)
    else [s[0]] + Without(s[1..], x)
  }

  predicate Distinct<K(==)>(s: seq<K>) {
    forall i, j :: 0 <= i < j < |s| ==> s[i] != s[j]
  }

  /** `keys` is the insertion order of the keys, `entries` the contents. */
  datatype OrderedMap<K(==), V> = OrderedMap(keys: seq<K>, entries: map<K, V>) {

    /** The order lists every key of the contents exactly once. */
    ghost predicate Valid() {
      && Distinct(keys)
      && (forall k :: k in entries ==> k in keys)
      && (forall i :: 0 <= i < |keys| ==> keys[i] in entries)
    }

    /** `map.get(k)`. */
    function Get(k: K): (r: Option<V>)
      ensures r.Some? <==> k in entries
      ensures r.Some? ==> r.value == entries[k]
    {
      if k in entries then Some(entries[k]) else None
    }

    /** `map.set(k, v)`: a new key goes last, a key already present keeps its place. */
    function Put(k: K, v: V): OrderedMap<K, V> {
      if k in entries then OrderedMap(keys, entries[k := v]) else OrderedMap(keys + [k], entries[k := v])
    }

    /** `map.delete(k)`. */
    function Remove(k: K): OrderedMap<K, V> {
      OrderedMap(Without(keys, k), entries - {k})
    }

    /** `Array.from(map.values())`: the values in key-insertion order. */
    function Values(): (vs: seq<V>)
      requires Valid()
      ensures |vs| == |keys|
      ensures forall i :: 0 <= i < |keys| ==> vs[i] == entries[keys[i]]
    {
      seq(|keys|, i requires 0 <= i < |keys| => entries[keys[i]])
    }
  }

  function Empty<K(==), V>(): (m: OrderedMap<K, V>)
    ensures m.Valid() && m.entries == map[] && m.Values() == []
  {
    OrderedMap([], map[])
  }

  /** `set` keeps the map well formed, binds `k` to `v` and leaves every other key alone. */
  lemma PutValid<K, V>(m: OrderedMap<K, V>, k: K, v: V)
    requires m.Valid()
    ensures m.Put(k, v).Valid()
    ensures m.Put(k, v).Get(k) == Some(v)
    ensures forall j :: j != k ==> m.Put(k, v).Get(j) == m.Get(j)
  {
    var n := m.Put(k, v);
    if k !in m.entries {
      forall i, j | 0 <= i < j < |n.keys| ensures n.keys[i] != n.keys[j] {
        if j == |m.keys| {
          assert m.keys[i] in m.entries;
        }
      }
    }
  }

  /** `delete` keeps the map well formed, forgets `k` and leaves every other key alone. */
  lemma RemoveValid<K, V>(m: OrderedMap<K, V>, k: K)
    requires m.Valid()
    ensures m.Remove(k).Valid()
    ensures m.Remove(k).Get(k) == None
    ensures forall j :: j != k ==> m.Remove(k).Get(j) == m.Get(j)
  {
    WithoutDistinct(m.keys, k);
  }

  lemma {:induction false} WithoutDistinct<K>(s: seq<K>, x: K)
    requires Distinct(s)
    ensures Distinct(Without(s, x))
  {
    if s != [] {
      WithoutDistinct(s[1..], x);
      if s[0] != x {
        assert s[0] !in s[1..];
      }
    }
  }

  lemma {:induction false} WithoutAbsent<K>(s: seq<K>, x: K)
    requires x !in s
    ensures Without(s, x) == s
  {
    if s != [] {
      WithoutAbsent(s[1..], x);
    }
  }

  /** In a list without repeats, `s[i]` occurs neither before nor after position `i`. */
  lemma DistinctAt<K>(s: seq<K>, i: nat)
    requires Distinct(s) && i < |s|
    ensures s[i] !in s[..i] && s[i] !in s[i + 1..]
  {
    assert forall k :: 0 <= k < i ==> s[k] != s[i];
    assert forall k :: i < k < |s| ==> s[k] != s[i];
  }

  /** Removing `s[i]` when it occurs nowhere else takes out exactly position `i`. */
  lemma {:induction false} WithoutOnly<K>(s: seq<K>, i: nat)
    requires i < |s| && s[i] !in s[..i] && s[i] !in s[i + 1..]
    ensures Without(s, s[i]) == s[..i] + s[i + 1..]
  {
    var x := s[i];
    if i == 0 {
      WithoutAbsent(s[1..], x);
    } else {
      var t := s[1..];
      assert t[i - 1] == x;
      assert s[..i] == [s[0]] + t[..i - 1];
      assert t[i..] == s[i + 1..];
      WithoutOnly(t, i - 1);
      assert s[0] != x;
    }
  }

  /** In a list without repeats, removing `s[i]` takes out exactly position `i`. */
  lemma WithoutAt<K>(s: seq<K>, i: nat)
    requires Distinct(s) && i < |s|
    ensures Without(s, s[i]) == s[..i] + s[i + 1..]
  {
    DistinctAt(s, i);
    WithoutOnly(s, i);
  }

  /** Setting a new key appends its value to `values()`. */
  lemma PutNewValues<K, V>(m: OrderedMap<K, V>, k: K, v: V)
    requires m.Valid() && k !in m.entries
    ensures m.Put(k, v).Valid()
    ensures m.Put(k, v).Values() == m.Values() + [v]
  {
    PutValid(m, k, v);
  }

  /** Setting a key already present changes its value in place; the order is kept. */
  lemma PutExistingValues<K, V>(m: OrderedMap<K, V>, k: K, v: V)
    requires m.Valid() && k in m.entries
    ensures m.Put(k, v).Valid()
    ensures m.Put(k, v).keys == m.keys
    ensures forall i :: 0 <= i < |m.keys| ==>
      m.Put(k, v).Values()[i] == if m.keys[i] == k then v else m.Values()[i]
  {
    PutValid(m, k, v);
  }

  /** Setting a key to the value it already has changes nothing. */
  lemma PutUnchanged<K, V>(m: OrderedMap<K, V>, k: K, v: V)
    requires k in m.entries && m.entries[k] == v
    ensures m.Put(k, v) == m
  {
    assert m.entries[k := v] == m.entries;
  }

  /** Deleting the key at position `i` removes exactly that value from `values()`. */
  lemma RemoveValues<K, V>(m: OrderedMap<K, V>, i: nat)
    requires m.Valid() && i < |m.keys|
    ensures m.Remove(m.keys[i]).Valid()
    ensures m.Remove(m.keys[i]).Values() == m.Values()[..i] + m.Values()[i + 1..]
  {
    var k := m.keys[i];
    RemoveValid(m, k);
    WithoutAt(m.keys, i);
    var n := m.Remove(k);
    var ks := m.keys[..i] + m.keys[i + 1..];
    assert n.keys == ks;
    var vs := m.Values();
    var expected := vs[..i] + vs[i + 1..];
    assert |n.Values()| == |expected|;
    forall j | 0 <= j < |expected| ensures n.Values()[j] == expected[j] {
      if j < i {
        assert ks[j] == m.keys[j];
      } else {
        assert ks[j] == m.keys[i + 1..][j - i] == m.keys[j + 1];
        assert expected[j] == vs[i + 1..][j - i];
      }
    }
  }

  /** Deleting an absent key changes nothing. */
  lemma RemoveAbsent<K, V>(m: OrderedMap<K, V>, k: K)
    requires m.Valid() && k !in m.entries
    ensures m.Remove(k) == m
  {
    WithoutAbsent(m.keys, k);
    assert m.entries - {k} == m.entries;
  }
}
